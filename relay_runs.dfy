/** The order in which a run of media frames reaches the current upstream
    socket: one append per frame, in input order, each holding that frame's
    transcode, with the commits in between. */
module RelayRuns {
  import opened Pcm16
  import opened Transcode
  import opened Relay

  /** The requests of r other than commits, in order. */
  function WithoutCommits(r: seq<UpstreamRequest>): seq<UpstreamRequest> {
    if |r| == 0 then []
    else WithoutCommits(r[..|r| - 1]) + (if r[|r| - 1].CommitAudio? then [] else [r[|r| - 1]])
  }

  /** The appends a run of media frames should produce, one per frame, in order. */
  function Appended(payloads: seq<seq<byte>>): seq<UpstreamRequest> {
    seq(|payloads|, i requires 0 <= i < |payloads| => AppendAudio(TelephonyToUpstream(payloads[i])))
  }

  lemma WithoutCommitsSnoc(r: seq<UpstreamRequest>, x: UpstreamRequest)
    ensures WithoutCommits(r + [x]) == WithoutCommits(r) + (if x.CommitAudio? then [] else [x])
  {
    assert (r + [x])[..|r|] == r;
  }

  /** One media frame with the current socket open: apart from commits, that
      socket receives exactly the frame's append. */
  lemma MediaStepRequests(s: CallState, payload: seq<byte>)
    requires CurrentState(s) == Some(Open)
    ensures var t := OnMedia(s, payload);
      var h := s.openaiWs.value;
      t.openaiWs == s.openaiWs && CurrentState(t) == Some(Open) &&
      WithoutCommits(RequestsTo(t.outbox, h)) ==
        WithoutCommits(RequestsTo(s.outbox, h)) + [AppendAudio(TelephonyToUpstream(payload))]
  {
    var h := s.openaiWs.value;
    var a := AppendAudio(TelephonyToUpstream(payload));
    var xa := ToUpstream(h, a);
    var r := RequestsTo(s.outbox, h);
    CountsAfterSend(s.outbox, xa);
    WithoutCommitsSnoc(r, a);
    if s.audioFrameCount + 1 >= CommitThreshold {
      CountsAfterSend(s.outbox + [xa], ToUpstream(h, CommitAudio));
      WithoutCommitsSnoc(r + [a], CommitAudio);
    }
  }

  /** n media frames while the current socket stays open: apart from commits,
      the requests it receives are the appends of the frames' transcodes, in
      input order, and it stays the current, open socket. */
  lemma {:induction false} MediaRunRequests(s: CallState, payloads: seq<seq<byte>>)
    requires CurrentState(s) == Some(Open)
    ensures var t := Run(s, MediaEvents(payloads));
      var h := s.openaiWs.value;
      t.openaiWs == s.openaiWs && CurrentState(t) == Some(Open) &&
      WithoutCommits(RequestsTo(t.outbox, h)) == WithoutCommits(RequestsTo(s.outbox, h)) + Appended(payloads)
    decreases |payloads|
  {
    if |payloads| == 0 {
      assert Appended(payloads) == [];
    } else {
      var h := s.openaiWs.value;
      var s1 := OnMedia(s, payloads[0]);
      var rest := payloads[1..];
      RunMediaEvents(s, payloads);
      MediaStepRequests(s, payloads[0]);
      assert s1.openaiWs.value == h;
      MediaRunRequests(s1, rest);
      AppendedCons(payloads);
      var t1 := Run(s1, MediaEvents(rest));
      AppendsChain(WithoutCommits(RequestsTo(t1.outbox, h)), WithoutCommits(RequestsTo(s1.outbox, h)),
                   WithoutCommits(RequestsTo(s.outbox, h)), AppendAudio(TelephonyToUpstream(payloads[0])),
                   Appended(rest), Appended(payloads));
    }
  }

  /** The requests after the first frame and after the rest, put together. */
  lemma AppendsChain(after: seq<UpstreamRequest>, middle: seq<UpstreamRequest>, before: seq<UpstreamRequest>,
                     first: UpstreamRequest, rest: seq<UpstreamRequest>, all: seq<UpstreamRequest>)
    requires after == middle + rest && middle == before + [first] && all == [first] + rest
    ensures after == before + all
  {
  }

  /** A run of media frames is its first frame, then the rest. */
  lemma RunMediaEvents(s: CallState, payloads: seq<seq<byte>>)
    requires |payloads| > 0
    ensures Run(s, MediaEvents(payloads)) == Run(OnMedia(s, payloads[0]), MediaEvents(payloads[1..]))
  {
    var evs := MediaEvents(payloads);
    assert evs[0] == TwilioMessageEvent(Media(payloads[0]));
    assert evs[1..] == MediaEvents(payloads[1..]);
  }

  lemma AppendedCons(payloads: seq<seq<byte>>)
    requires |payloads| > 0
    ensures Appended(payloads) == [AppendAudio(TelephonyToUpstream(payloads[0]))] + Appended(payloads[1..])
  {
    var rest := Appended(payloads[1..]);
    forall i | 0 <= i < |payloads|
      ensures Appended(payloads)[i] == ([AppendAudio(TelephonyToUpstream(payloads[0]))] + rest)[i]
    {
      if i > 0 {
        assert rest[i - 1] == AppendAudio(TelephonyToUpstream(payloads[i]));
      }
    }
  }
}
