/** The per-connection handler of server.js: a Twilio media stream paired with
    upstream realtime sessions. Sockets are abstracted to their ready states and
    to an append-only outbox recording, in order, every message the handler sends
    and every close that takes effect. Messages are typed records; JSON and base64 are
    not modelled. */
module Relay {
  import opened Pcm16
  import opened Transcode

  datatype Option<T> = None | Some(value: T)

  /** The session.update payload sent when an upstream socket opens. */
  datatype SessionConfig = SessionConfig(
    modalities: seq<string>,
    instructions: string,
    voice: string,
    inputAudioFormat: string,
    outputAudioFormat: string,
    inputAudioSampleRate: nat,
    outputAudioSampleRate: nat,
    transcriptionModel: string)

  const Session16k := SessionConfig(
    ["text", "audio"],
    "You are a helpful AI assistant answering phone calls. Be concise, friendly, and professional. Ask how you can help them.",
    "alloy", "pcm16", "pcm16", 16000, 16000, "whisper-1")

  /** Forwarded media frames per input_audio_buffer.commit. */
  const CommitThreshold: nat := 20

  datatype UpstreamRequest =
    | SessionUpdate(session: SessionConfig)
    | AppendAudio(audio: seq<byte>)   // input_audio_buffer.append, PCM16 at 16 kHz
    | CommitAudio                     // input_audio_buffer.commit

  /** An action of the handler. Upstream sockets are numbered in the order
      they were created; the current one is the last. */
  datatype Outbound =
    | ToUpstream(handle: nat, request: UpstreamRequest)
    | ToTwilio(streamSid: Option<string>, payload: seq<byte>)   // a Twilio media event, mu-law
    | CloseUpstream(handle: nat)

  /** The events of the Twilio socket's message listener, by msg.event. */
  datatype TwilioMessage =
    | Start(streamSid: string)
    | Media(payload: seq<byte>)
    | Stop
    | OtherTwilioEvent(name: string)

  /** The messages of an upstream socket's message listener, by message.type. */
  datatype UpstreamMessage =
    | AudioDelta(delta: seq<byte>)    // response.audio.delta, PCM16 at 16 kHz
    | SessionCreated
    | ErrorMessage(error: string)
    | OtherUpstreamType(name: string)

  /** WebSocket readyState: CONNECTING, OPEN, CLOSING, CLOSED. */
  datatype ReadyState = Connecting | Open | Closing | Closed

  datatype Event =
    | TwilioMessageEvent(msg: TwilioMessage)
    | TwilioError
    | TwilioClose
    | UpstreamOpen(handle: nat)
    | UpstreamMessageEvent(handle: nat, message: UpstreamMessage)
    | UpstreamError(handle: nat)
    | UpstreamClose(handle: nat)

  /** The closure variables streamSid and openaiWs, the audioFrameCount field
      kept on the Twilio socket, the ready states and everything sent so far. */
  datatype CallState = CallState(
    streamSid: Option<string>,
    upstream: seq<ReadyState>,
    openaiWs: Option<nat>,
    audioFrameCount: nat,
    twilioOpen: bool,
    outbox: seq<Outbound>)

  /** A new connection: no stream, no upstream socket, the counter still unset
      (read as 0 by the handler). */
  const Initial := CallState(None, [], None, 0, true, [])

  // ---------------------------------------------------------------------
  // Views of the outbox

  predicate IsAppend(o: Outbound) {
    o.ToUpstream? && o.request.AppendAudio?
  }

  predicate IsCommit(o: Outbound) {
    o.ToUpstream? && o.request.CommitAudio?
  }

  function CountAppends(o: seq<Outbound>): nat {
    if |o| == 0 then 0 else CountAppends(o[..|o| - 1]) + (if IsAppend(o[|o| - 1]) then 1 else 0)
  }

  function CountCommits(o: seq<Outbound>): nat {
    if |o| == 0 then 0 else CountCommits(o[..|o| - 1]) + (if IsCommit(o[|o| - 1]) then 1 else 0)
  }

  /** The requests sent to upstream socket h, in order. */
  function RequestsTo(o: seq<Outbound>, h: nat): seq<UpstreamRequest> {
    if |o| == 0 then []
    else
      var last := o[|o| - 1];
      RequestsTo(o[..|o| - 1], h) + (if last.ToUpstream? && last.handle == h then [last.request] else [])
  }

  lemma CountsAfterSend(o: seq<Outbound>, x: Outbound)
    ensures CountAppends(o + [x]) == CountAppends(o) + (if IsAppend(x) then 1 else 0)
    ensures CountCommits(o + [x]) == CountCommits(o) + (if IsCommit(x) then 1 else 0)
    ensures forall h :: (RequestsTo(o + [x], h) ==
      RequestsTo(o, h) + (if x.ToUpstream? && x.handle == h then [x.request] else []))
  {
    assert (o + [x])[..|o|] == o;
  }

  // ---------------------------------------------------------------------
  // The handlers as functions of the state

  /** The ready state of the socket openaiWs refers to, if there is one. */
  function CurrentState(s: CallState): Option<ReadyState> {
    if s.openaiWs.Some? && s.openaiWs.value < |s.upstream| then Some(s.upstream[s.openaiWs.value])
    else None
  }

  function Emit(s: CallState, o: Outbound): CallState {
    s.(outbox := s.outbox + [o])
  }

  /** openaiWs.send(request) from the open listener: delivered when the
      current socket is open, dropped otherwise. */
  function SendToCurrent(s: CallState, request: UpstreamRequest): CallState {
    if CurrentState(s) == Some(Open) then Emit(s, ToUpstream(s.openaiWs.value, request)) else s
  }

  /** openaiWs.close() on the current socket: a connecting or open socket
      starts closing; a closing or closed one ignores it. */
  function CloseCurrent(s: CallState): CallState {
    if CurrentState(s) == Some(Connecting) || CurrentState(s) == Some(Open) then
      Emit(s.(upstream := s.upstream[s.openaiWs.value := Closing]), CloseUpstream(s.openaiWs.value))
    else s
  }

  /** connectToOpenAI(): a new connecting socket becomes openaiWs; the previous
      one is left as it is. */
  function OnStart(s: CallState, streamSid: string): CallState {
    s.(streamSid := Some(streamSid), upstream := s.upstream + [Connecting], openaiWs := Some(|s.upstream|))
  }

  /** The media case: forward and count a frame only while the current socket
      is open; every CommitThreshold-th frame is followed by a commit and
      resets the counter. */
  function OnMedia(s: CallState, payload: seq<byte>): CallState {
    if CurrentState(s) == Some(Open) then
      var h := s.openaiWs.value;
      var appended := Emit(s, ToUpstream(h, AppendAudio(TelephonyToUpstream(payload))));
      var count := s.audioFrameCount + 1;
      if count >= CommitThreshold then
        Emit(appended, ToUpstream(h, CommitAudio)).(audioFrameCount := 0)
      else
        appended.(audioFrameCount := count)
    else s
  }

  function OnTwilioMessage(s: CallState, msg: TwilioMessage): CallState {
    match msg
    case Start(sid) => OnStart(s, sid)
    case Media(payload) => OnMedia(s, payload)
    case Stop => CloseCurrent(s)
    case OtherTwilioEvent(_) => s
  }

  /** An upstream socket's open listener: the socket is now open, and
      session.update goes to whatever socket openaiWs holds at that moment. */
  function OnUpstreamOpen(s: CallState, h: nat): CallState {
    if h < |s.upstream| && s.upstream[h] == Connecting then
      SendToCurrent(s.(upstream := s.upstream[h := Open]), SessionUpdate(Session16k))
    else s
  }

  /** An upstream socket's message listener: audio deltas are transcoded and
      sent to Twilio, tagged with the current streamSid, while Twilio is open. */
  function OnUpstreamMessage(s: CallState, message: UpstreamMessage): CallState {
    match message
    case AudioDelta(delta) =>
      if s.twilioOpen then Emit(s, ToTwilio(s.streamSid, UpstreamToTelephony(delta))) else s
    case SessionCreated => s
    case ErrorMessage(_) => s
    case OtherUpstreamType(_) => s
  }

  function OnUpstreamClose(s: CallState, h: nat): CallState {
    if h < |s.upstream| then s.(upstream := s.upstream[h := Closed]) else s
  }

  function Step(s: CallState, ev: Event): CallState {
    match ev
    case TwilioMessageEvent(msg) => OnTwilioMessage(s, msg)
    case TwilioError => s
    case TwilioClose => CloseCurrent(s.(twilioOpen := false))
    case UpstreamOpen(h) => OnUpstreamOpen(s, h)
    case UpstreamMessageEvent(_, message) => OnUpstreamMessage(s, message)
    case UpstreamError(_) => s
    case UpstreamClose(h) => OnUpstreamClose(s, h)
  }

  function Run(s: CallState, evs: seq<Event>): CallState
    decreases |evs|
  {
    if |evs| == 0 then s else Run(Step(s, evs[0]), evs[1..])
  }

  // ---------------------------------------------------------------------
  // The invariant

  /** openaiWs holds the last socket created, and none before the first start. */
  predicate CurrentIsLast(s: CallState) {
    (s.openaiWs.None? <==> |s.upstream| == 0) &&
    (s.openaiWs.Some? ==> s.openaiWs.value == |s.upstream| - 1)
  }

  /** Every append is counted: the appends sent so far are CommitThreshold per
      commit plus the frames still waiting, and fewer than CommitThreshold wait. */
  predicate Batched(s: CallState) {
    s.audioFrameCount < CommitThreshold &&
    CountAppends(s.outbox) == CommitThreshold * CountCommits(s.outbox) + s.audioFrameCount
  }

  /** Each commit comes right after an append to the same socket. */
  predicate CommitsFollowAppends(o: seq<Outbound>) {
    forall k :: 0 <= k < |o| && IsCommit(o[k]) ==>
      0 < k && IsAppend(o[k - 1]) && o[k - 1].handle == o[k].handle
  }

  /** A socket that has not opened has been sent nothing. */
  ghost predicate UnopenedUnserved(s: CallState) {
    (forall h :: |s.upstream| <= h ==> RequestsTo(s.outbox, h) == []) &&
    (forall h :: 0 <= h < |s.upstream| && s.upstream[h] == Connecting ==> RequestsTo(s.outbox, h) == [])
  }

  /** The first request any socket gets is session.update. */
  ghost predicate SessionUpdateFirst(o: seq<Outbound>) {
    forall h :: RequestsTo(o, h) != [] ==> RequestsTo(o, h)[0].SessionUpdate?
  }

  /** The current socket, once open, has been sent something. */
  ghost predicate CurrentServed(s: CallState) {
    CurrentState(s) == Some(Open) ==> RequestsTo(s.outbox, s.openaiWs.value) != []
  }

  ghost predicate SessionFirst(s: CallState) {
    UnopenedUnserved(s) && SessionUpdateFirst(s.outbox) && CurrentServed(s)
  }

  ghost predicate Invariant(s: CallState) {
    CurrentIsLast(s) && Batched(s) && CommitsFollowAppends(s.outbox) && SessionFirst(s)
  }

  lemma InitialInvariant()
    ensures Invariant(Initial)
  {
  }

  /** Sending request r to the open socket c, which has been sent something
      already unless r is session.update. */
  lemma EmitRequest(s: CallState, c: nat, r: UpstreamRequest)
    requires c < |s.upstream| && s.upstream[c] == Open
    requires RequestsTo(s.outbox, c) != [] || r.SessionUpdate?
    requires UnopenedUnserved(s) && SessionUpdateFirst(s.outbox)
    ensures UnopenedUnserved(Emit(s, ToUpstream(c, r)))
    ensures SessionUpdateFirst(Emit(s, ToUpstream(c, r)).outbox)
    ensures RequestsTo(Emit(s, ToUpstream(c, r)).outbox, c) == RequestsTo(s.outbox, c) + [r]
  {
    var x := ToUpstream(c, r);
    var o := s.outbox + [x];
    CountsAfterSend(s.outbox, x);
    forall g | g != c
      ensures RequestsTo(o, g) == RequestsTo(s.outbox, g)
    {
    }
    assert RequestsTo(o, c) == RequestsTo(s.outbox, c) + [r];
    assert RequestsTo(o, c)[0].SessionUpdate?;
  }

  lemma EmitOther(s: CallState, o: Outbound)
    requires Invariant(s) && !o.ToUpstream?
    ensures Invariant(Emit(s, o))
  {
    CountsAfterSend(s.outbox, o);
  }

  lemma CloseCurrentPreserves(s: CallState)
    requires Invariant(s)
    ensures Invariant(CloseCurrent(s))
  {
    if CurrentState(s) == Some(Connecting) || CurrentState(s) == Some(Open) {
      var t := s.(upstream := s.upstream[s.openaiWs.value := Closing]);
      assert Invariant(t);
      EmitOther(t, CloseUpstream(s.openaiWs.value));
    }
  }

  lemma OnStartPreserves(s: CallState, sid: string)
    requires Invariant(s)
    ensures Invariant(OnStart(s, sid))
  {
  }

  lemma FollowsAfterNonCommit(o: seq<Outbound>, x: Outbound)
    requires CommitsFollowAppends(o) && !IsCommit(x)
    ensures CommitsFollowAppends(o + [x])
  {
    assert forall k :: 0 <= k < |o| ==> (o + [x])[k] == o[k];
  }

  lemma FollowsAfterCommit(o: seq<Outbound>, h: nat)
    requires CommitsFollowAppends(o) && 0 < |o| && IsAppend(o[|o| - 1]) && o[|o| - 1].handle == h
    ensures CommitsFollowAppends(o + [ToUpstream(h, CommitAudio)])
  {
    assert forall k :: 0 <= k < |o| ==> (o + [ToUpstream(h, CommitAudio)])[k] == o[k];
  }

  lemma OnMediaPreserves(s: CallState, payload: seq<byte>)
    requires Invariant(s)
    ensures Invariant(OnMedia(s, payload))
  {
    if CurrentState(s) == Some(Open) {
      var h := s.openaiWs.value;
      var xa := ToUpstream(h, AppendAudio(TelephonyToUpstream(payload)));
      var appended := Emit(s, xa);
      EmitRequest(s, h, xa.request);
      CountsAfterSend(s.outbox, xa);
      FollowsAfterNonCommit(s.outbox, xa);
      if s.audioFrameCount + 1 >= CommitThreshold {
        var xc := ToUpstream(h, CommitAudio);
        EmitRequest(appended, h, CommitAudio);
        CountsAfterSend(appended.outbox, xc);
        FollowsAfterCommit(appended.outbox, h);
        var u := Emit(appended, xc).(audioFrameCount := 0);
        assert CurrentIsLast(u) && Batched(u);
      }
    }
  }

  /** Any message other than an append or a commit leaves the batching alone. */
  lemma EmitKeepsBatching(s: CallState, x: Outbound)
    requires Batched(s) && CommitsFollowAppends(s.outbox) && !IsAppend(x) && !IsCommit(x)
    ensures Batched(Emit(s, x)) && CommitsFollowAppends(Emit(s, x).outbox)
  {
    CountsAfterSend(s.outbox, x);
    var o := s.outbox + [x];
    assert forall k :: 0 <= k < |s.outbox| ==> o[k] == s.outbox[k];
  }

  /** The open socket's state change alone: the invariant holds except that
      the current socket may be open and not yet served. */
  lemma MarkOpen(s: CallState, h: nat)
    requires Invariant(s) && h < |s.upstream| && s.upstream[h] == Connecting
    ensures var t := s.(upstream := s.upstream[h := Open]);
      CurrentIsLast(t) && Batched(t) && CommitsFollowAppends(t.outbox) &&
      UnopenedUnserved(t) && SessionUpdateFirst(t.outbox) &&
      (CurrentState(t) == Some(Open) ==> t.openaiWs.value == h || RequestsTo(t.outbox, t.openaiWs.value) != []) &&
      RequestsTo(t.outbox, h) == []
  {
  }

  lemma OnUpstreamOpenPreserves(s: CallState, h: nat)
    requires Invariant(s)
    ensures Invariant(OnUpstreamOpen(s, h))
  {
    if h < |s.upstream| && s.upstream[h] == Connecting {
      var t := s.(upstream := s.upstream[h := Open]);
      MarkOpen(s, h);
      if CurrentState(t) == Some(Open) {
        var c := t.openaiWs.value;
        var x := ToUpstream(c, SessionUpdate(Session16k));
        EmitRequest(t, c, x.request);
        EmitKeepsBatching(t, x);
      }
    }
  }

  lemma OnUpstreamMessagePreserves(s: CallState, message: UpstreamMessage)
    requires Invariant(s)
    ensures Invariant(OnUpstreamMessage(s, message))
  {
    if message.AudioDelta? && s.twilioOpen {
      EmitOther(s, ToTwilio(s.streamSid, UpstreamToTelephony(message.delta)));
    }
  }

  /** Every handler keeps the invariant. */
  lemma StepPreserves(s: CallState, ev: Event)
    requires Invariant(s)
    ensures Invariant(Step(s, ev))
  {
    match ev
    case TwilioMessageEvent(msg) => {
      match msg
      case Start(sid) => OnStartPreserves(s, sid);
      case Media(payload) => OnMediaPreserves(s, payload);
      case Stop => CloseCurrentPreserves(s);
      case OtherTwilioEvent(_) =>
    }
    case TwilioError =>
    case TwilioClose => CloseCurrentPreserves(s.(twilioOpen := false));
    case UpstreamOpen(h) => OnUpstreamOpenPreserves(s, h);
    case UpstreamMessageEvent(_, message) => OnUpstreamMessagePreserves(s, message);
    case UpstreamError(_) =>
    case UpstreamClose(h) =>
  }

  lemma {:induction false} RunPreserves(s: CallState, evs: seq<Event>)
    requires Invariant(s)
    ensures Invariant(Run(s, evs))
    decreases |evs|
  {
    if |evs| > 0 {
      StepPreserves(s, evs[0]);
      RunPreserves(Step(s, evs[0]), evs[1..]);
    }
  }

  // ---------------------------------------------------------------------
  // Properties of the handlers

  /** From a new connection, whatever happens: the counter is the number of
      appends sent modulo CommitThreshold, and one commit has been sent per
      CommitThreshold appends. */
  lemma BatchingFromStart(evs: seq<Event>)
    ensures var s := Run(Initial, evs);
      s.audioFrameCount < CommitThreshold &&
      s.audioFrameCount == CountAppends(s.outbox) % CommitThreshold &&
      CountCommits(s.outbox) == CountAppends(s.outbox) / CommitThreshold
  {
    InitialInvariant();
    RunPreserves(Initial, evs);
  }

  function MediaEvents(payloads: seq<seq<byte>>): seq<Event> {
    seq(|payloads|, i requires 0 <= i < |payloads| => TwilioMessageEvent(Media(payloads[i])))
  }

  lemma {:induction false} MediaRunAppends(s: CallState, payloads: seq<seq<byte>>)
    requires Invariant(s) && CurrentState(s) == Some(Open)
    ensures var t := Run(s, MediaEvents(payloads));
      Invariant(t) && CurrentState(t) == Some(Open) &&
      CountAppends(t.outbox) == CountAppends(s.outbox) + |payloads|
    decreases |payloads|
  {
    if |payloads| > 0 {
      var evs := MediaEvents(payloads);
      var h := s.openaiWs.value;
      var xa := ToUpstream(h, AppendAudio(TelephonyToUpstream(payloads[0])));
      CountsAfterSend(s.outbox, xa);
      if s.audioFrameCount + 1 >= CommitThreshold {
        CountsAfterSend(s.outbox + [xa], ToUpstream(h, CommitAudio));
      }
      OnMediaPreserves(s, payloads[0]);
      assert evs[1..] == MediaEvents(payloads[1..]);
      MediaRunAppends(Step(s, evs[0]), payloads[1..]);
    }
  }

  /** n media frames while the current socket stays open: n appends, and the
      commits and the counter follow from the counter's start value c, as
      floor((c + n) / CommitThreshold) and (c + n) mod CommitThreshold. */
  lemma MediaRun(s: CallState, payloads: seq<seq<byte>>)
    requires Invariant(s) && CurrentState(s) == Some(Open)
    ensures var t := Run(s, MediaEvents(payloads));
      CountAppends(t.outbox) == CountAppends(s.outbox) + |payloads| &&
      CountCommits(t.outbox) == CountCommits(s.outbox) + (s.audioFrameCount + |payloads|) / CommitThreshold &&
      t.audioFrameCount == (s.audioFrameCount + |payloads|) % CommitThreshold
  {
    MediaRunAppends(s, payloads);
    var t := Run(s, MediaEvents(payloads));
    var c, n := s.audioFrameCount, |payloads|;
    var d := CountCommits(t.outbox) - CountCommits(s.outbox);
    assert c + n == CommitThreshold * d + t.audioFrameCount;
    DivModUnique(c + n, d, t.audioFrameCount);
  }

  lemma DivModUnique(x: int, q: int, r: int)
    requires x == CommitThreshold * q + r && 0 <= r < CommitThreshold
    ensures q == x / CommitThreshold && r == x % CommitThreshold
  {
  }

  /** A media frame is forwarded, and counted, exactly when the current socket
      is open: then an append of the transcoded frame goes to it, followed by a
      commit exactly when the frame completes a batch. */
  lemma MediaForwardedOnlyWhenOpen(s: CallState, payload: seq<byte>)
    requires Invariant(s)
    ensures CurrentState(s) != Some(Open) ==> Step(s, TwilioMessageEvent(Media(payload))) == s
    ensures CurrentState(s) == Some(Open) ==>
      var t := Step(s, TwilioMessageEvent(Media(payload)));
      var h := s.openaiWs.value;
      var commits := s.audioFrameCount + 1 == CommitThreshold;
      |t.outbox| == |s.outbox| + (if commits then 2 else 1) &&
      t.outbox[..|s.outbox|] == s.outbox &&
      t.outbox[|s.outbox|] == ToUpstream(h, AppendAudio(TelephonyToUpstream(payload))) &&
      (commits ==> t.outbox[|s.outbox| + 1] == ToUpstream(h, CommitAudio)) &&
      t.audioFrameCount == (s.audioFrameCount + 1) % CommitThreshold
  {
    if CurrentState(s) == Some(Open) {
      var h := s.openaiWs.value;
      var xa := ToUpstream(h, AppendAudio(TelephonyToUpstream(payload)));
      var o := s.outbox + [xa];
      assert o[..|s.outbox|] == s.outbox && o[|s.outbox|] == xa;
      if s.audioFrameCount + 1 == CommitThreshold {
        var o2 := o + [ToUpstream(h, CommitAudio)];
        assert o2[..|s.outbox|] == s.outbox && o2[|s.outbox|] == xa;
      }
    }
  }

  /** When the current socket opens, the first and only request it has been
      sent is session.update for PCM16 at 16 kHz both ways. */
  lemma OpenSendsSessionUpdate(s: CallState, h: nat)
    requires Invariant(s) && s.openaiWs == Some(h) && s.upstream[h] == Connecting
    ensures var t := Step(s, UpstreamOpen(h));
      t.upstream[h] == Open &&
      RequestsTo(t.outbox, h) == [SessionUpdate(Session16k)] &&
      Session16k.inputAudioFormat == "pcm16" && Session16k.outputAudioFormat == "pcm16" &&
      Session16k.inputAudioSampleRate == 16000 && Session16k.outputAudioSampleRate == 16000
  {
    var t := s.(upstream := s.upstream[h := Open]);
    CountsAfterSend(t.outbox, ToUpstream(h, SessionUpdate(Session16k)));
  }

  /** A second start opens a new socket and leaves the previous one as it was:
      not closed, no message sent, and the frame counter carried over. */
  lemma RestartLeaksHandle(s: CallState, sid: string)
    requires Invariant(s) && CurrentState(s) == Some(Open)
    ensures var t := Step(s, TwilioMessageEvent(Start(sid)));
      t.openaiWs == Some(|s.upstream|) && t.upstream == s.upstream + [Connecting] &&
      t.upstream[s.openaiWs.value] == Open &&
      t.outbox == s.outbox && t.audioFrameCount == s.audioFrameCount &&
      t.streamSid == Some(sid) && CurrentState(t) == Some(Connecting)
  {
  }

  lemma EmitSpares(o: seq<Outbound>, x: Outbound, h: nat)
    requires !(x.ToUpstream? && x.handle == h)
    ensures RequestsTo(o + [x], h) == RequestsTo(o, h)
  {
    CountsAfterSend(o, x);
  }

  lemma MediaSpares(s: CallState, payload: seq<byte>, h: nat)
    requires s.openaiWs.Some? && h != s.openaiWs.value
    ensures RequestsTo(OnMedia(s, payload).outbox, h) == RequestsTo(s.outbox, h)
  {
    if CurrentState(s) == Some(Open) {
      var c := s.openaiWs.value;
      var xa := ToUpstream(c, AppendAudio(TelephonyToUpstream(payload)));
      EmitSpares(s.outbox, xa, h);
      EmitSpares(s.outbox + [xa], ToUpstream(c, CommitAudio), h);
    }
  }

  lemma CloseSpares(s: CallState, h: nat)
    ensures RequestsTo(CloseCurrent(s).outbox, h) == RequestsTo(s.outbox, h)
  {
    if CurrentState(s) == Some(Connecting) || CurrentState(s) == Some(Open) {
      EmitSpares(s.outbox, CloseUpstream(s.openaiWs.value), h);
    }
  }

  lemma OpenSpares(s: CallState, g: nat, h: nat)
    requires s.openaiWs.Some? && h != s.openaiWs.value
    ensures RequestsTo(OnUpstreamOpen(s, g).outbox, h) == RequestsTo(s.outbox, h)
  {
    EmitSpares(s.outbox, ToUpstream(s.openaiWs.value, SessionUpdate(Session16k)), h);
  }

  lemma MessageSpares(s: CallState, message: UpstreamMessage, h: nat)
    ensures RequestsTo(OnUpstreamMessage(s, message).outbox, h) == RequestsTo(s.outbox, h)
  {
    if message.AudioDelta? {
      EmitSpares(s.outbox, ToTwilio(s.streamSid, UpstreamToTelephony(message.delta)), h);
    }
  }

  /** Only the current socket is ever sent a request: a socket that start
      replaced gets nothing more, whatever happens. */
  lemma ReplacedSocketGetsNothing(s: CallState, ev: Event, h: nat)
    requires s.openaiWs.Some? && h != s.openaiWs.value
    ensures RequestsTo(Step(s, ev).outbox, h) == RequestsTo(s.outbox, h)
  {
    match ev
    case TwilioMessageEvent(msg) => {
      match msg
      case Start(_) =>
      case Media(payload) => MediaSpares(s, payload, h);
      case Stop => CloseSpares(s, h);
      case OtherTwilioEvent(_) =>
    }
    case TwilioError =>
    case TwilioClose => CloseSpares(s.(twilioOpen := false), h);
    case UpstreamOpen(g) => OpenSpares(s, g, h);
    case UpstreamMessageEvent(_, message) => MessageSpares(s, message, h);
    case UpstreamError(_) =>
    case UpstreamClose(_) =>
  }

  /** The quirk of an outdated socket opening after a restart: session.update
      goes to the current socket, which cannot take it while it is still
      connecting, so nothing is sent and the outdated socket stays unserved.
      With the ws library that send throws out of the open listener; the model
      records only that nothing is delivered. */
  lemma StaleOpenSendsNothing(s: CallState, h: nat)
    requires Invariant(s) && h < |s.upstream| && s.upstream[h] == Connecting
    requires CurrentState(s) == Some(Connecting) && s.openaiWs.value != h
    ensures var t := Step(s, UpstreamOpen(h));
      t.outbox == s.outbox && t.upstream[h] == Open && RequestsTo(t.outbox, h) == []
  {
  }

  /** Each audio delta becomes one Twilio media message, tagged with the
      current streamSid and holding floor(L / 4) mu-law bytes for L bytes of
      PCM16, exactly while Twilio is open. */
  lemma AudioDeltaToTwilio(s: CallState, h: nat, delta: seq<byte>)
    ensures var t := Step(s, UpstreamMessageEvent(h, AudioDelta(delta)));
      (s.twilioOpen ==> t.outbox == s.outbox + [ToTwilio(s.streamSid, UpstreamToTelephony(delta))] &&
                        |UpstreamToTelephony(delta)| == |delta| / 4) &&
      (!s.twilioOpen ==> t == s)
  {
    if |delta| < 4 {
      assert |UpstreamToTelephony(delta)| == 0;
    } else {
      UpstreamToTelephonyBytes(delta, 0);
    }
  }

  /** stop closes the current socket when it is connecting or open, and every
      media frame after that is dropped. Nothing else changes: the frame
      counter is not reset, and streamSid and openaiWs are kept. */
  lemma StopClosesUpstream(s: CallState, payload: seq<byte>)
    requires Invariant(s) && s.openaiWs.Some?
    requires s.upstream[s.openaiWs.value] == Connecting || s.upstream[s.openaiWs.value] == Open
    ensures var t := Step(s, TwilioMessageEvent(Stop));
      var h := s.openaiWs.value;
      t.outbox == s.outbox + [CloseUpstream(h)] && t.upstream == s.upstream[h := Closing] &&
      t.audioFrameCount == s.audioFrameCount && t.streamSid == s.streamSid &&
      t.openaiWs == s.openaiWs && t.twilioOpen == s.twilioOpen &&
      Step(t, TwilioMessageEvent(Media(payload))) == t
  {
  }

  /** Twilio closing closes the current socket the same way, leaving the
      counter, streamSid and openaiWs as they were, and no message is sent to
      Twilio any more. */
  lemma TwilioCloseClosesUpstream(s: CallState, ev: Event)
    requires Invariant(s) && s.openaiWs.Some?
    requires s.upstream[s.openaiWs.value] == Connecting || s.upstream[s.openaiWs.value] == Open
    ensures var t := Step(s, TwilioClose);
      var h := s.openaiWs.value;
      t.outbox == s.outbox + [CloseUpstream(h)] && t.upstream == s.upstream[h := Closing] && !t.twilioOpen &&
      t.audioFrameCount == s.audioFrameCount && t.streamSid == s.streamSid && t.openaiWs == s.openaiWs &&
      !Step(t, ev).twilioOpen &&
      forall k :: |t.outbox| <= k < |Step(t, ev).outbox| ==> !Step(t, ev).outbox[k].ToTwilio?
  {
    TwilioClosedStaysSilent(Step(s, TwilioClose), ev);
  }

  /** Once Twilio has closed, it stays closed and nothing more is sent to it. */
  lemma TwilioClosedStaysSilent(s: CallState, ev: Event)
    requires !s.twilioOpen
    ensures var t := Step(s, ev);
      !t.twilioOpen && |s.outbox| <= |t.outbox| && t.outbox[..|s.outbox|] == s.outbox &&
      forall k :: |s.outbox| <= k < |t.outbox| ==> !t.outbox[k].ToTwilio?
  {
    OutboxOnlyGrows(s, ev);
  }

  /** The outbox is append-only: each handler adds at most two messages. */
  lemma OutboxOnlyGrows(s: CallState, ev: Event)
    ensures var t := Step(s, ev);
      |s.outbox| <= |t.outbox| <= |s.outbox| + 2 && t.outbox[..|s.outbox|] == s.outbox
  {
    var t := Step(s, ev);
    assert t.outbox[..|s.outbox|] == s.outbox by {
      if ev.TwilioMessageEvent? && ev.msg.Media? && CurrentState(s) == Some(Open) {
        var h := s.openaiWs.value;
        var xa := ToUpstream(h, AppendAudio(TelephonyToUpstream(ev.msg.payload)));
        if s.audioFrameCount + 1 >= CommitThreshold {
          assert t.outbox == s.outbox + [xa] + [ToUpstream(h, CommitAudio)];
          assert (s.outbox + [xa] + [ToUpstream(h, CommitAudio)])[..|s.outbox|] == s.outbox;
        }
      }
    }
  }

  /** stop twice is stop once: closing an already closing socket does nothing. */
  lemma CloseIdempotent(s: CallState)
    ensures Step(Step(s, TwilioMessageEvent(Stop)), TwilioMessageEvent(Stop)) == Step(s, TwilioMessageEvent(Stop))
  {
  }

  /** The error listeners and the session.created and error messages only log. */
  lemma ErrorsOnlyLog(s: CallState, h: nat, error: string)
    ensures Step(s, TwilioError) == s && Step(s, UpstreamError(h)) == s
    ensures Step(s, UpstreamMessageEvent(h, ErrorMessage(error))) == s
    ensures Step(s, UpstreamMessageEvent(h, SessionCreated)) == s
  {
  }

  // ---------------------------------------------------------------------
  // The connection handler as the source writes it

  /** One Twilio connection: the closure variables of the connection handler,
      the counter it keeps on the Twilio socket, and the sockets' states. Each
      listener is a method whose new state is the matching Step. */
  class Connection {
    var streamSid: Option<string>
    var upstream: seq<ReadyState>
    var openaiWs: Option<nat>
    var audioFrameCount: nat
    var twilioOpen: bool
    var outbox: seq<Outbound>

    function State(): CallState
      reads this
    {
      CallState(streamSid, upstream, openaiWs, audioFrameCount, twilioOpen, outbox)
    }

    ghost predicate Valid()
      reads this
    {
      Invariant(State())
    }

    constructor()
      ensures State() == Initial && Valid()
    {
      streamSid := None;
      upstream := [];
      openaiWs := None;
      audioFrameCount := 0;
      twilioOpen := true;
      outbox := [];
      InitialInvariant();
    }

    /** connectToOpenAI(): a new socket, still connecting, replaces openaiWs. */
    method ConnectToOpenAI()
      modifies this
      ensures upstream == old(upstream) + [Connecting] && openaiWs == Some(|old(upstream)|)
      ensures streamSid == old(streamSid) && audioFrameCount == old(audioFrameCount)
      ensures twilioOpen == old(twilioOpen) && outbox == old(outbox)
    {
      openaiWs := Some(|upstream|);
      upstream := upstream + [Connecting];
    }

    /** Close the current socket, if there is one and it is not already closing or closed. */
    method CloseOpenAI()
      modifies this
      ensures State() == CloseCurrent(old(State()))
    {
      if openaiWs.Some? && openaiWs.value < |upstream| &&
         (upstream[openaiWs.value] == Connecting || upstream[openaiWs.value] == Open) {
        upstream := upstream[openaiWs.value := Closing];
        outbox := outbox + [CloseUpstream(openaiWs.value)];
      }
    }

    /** twilioWs.on('message'): the switch on msg.event. */
    method HandleTwilioMessage(msg: TwilioMessage)
      requires Valid()
      modifies this
      ensures State() == Step(old(State()), TwilioMessageEvent(msg))
      ensures Valid()
    {
      StepPreserves(State(), TwilioMessageEvent(msg));
      match msg
      case Start(sid) =>
        streamSid := Some(sid);
        ConnectToOpenAI();
      case Media(payload) =>
        if openaiWs.Some? && openaiWs.value < |upstream| && upstream[openaiWs.value] == Open {
          var pcmData := MulawToPcm(payload);
          outbox := outbox + [ToUpstream(openaiWs.value, AppendAudio(pcmData[..]))];
          // An unset counter reads as 0; the constructor starts it there.
          audioFrameCount := audioFrameCount + 1;
          if audioFrameCount >= CommitThreshold {
            outbox := outbox + [ToUpstream(openaiWs.value, CommitAudio)];
            audioFrameCount := 0;
          }
        }
      case Stop =>
        CloseOpenAI();
      case OtherTwilioEvent(_) =>
    }

    /** twilioWs.on('error'): logs only. */
    method HandleTwilioError()
      requires Valid()
      ensures State() == Step(State(), TwilioError)
    {
    }

    /** twilioWs.on('close'): Twilio is gone; close the current socket. */
    method HandleTwilioClose()
      requires Valid()
      modifies this
      ensures State() == Step(old(State()), TwilioClose)
      ensures Valid()
    {
      StepPreserves(State(), TwilioClose);
      twilioOpen := false;
      CloseOpenAI();
    }

    /** The open listener of socket h: session.update, sent on openaiWs. */
    method HandleUpstreamOpen(h: nat)
      requires Valid()
      modifies this
      ensures State() == Step(old(State()), UpstreamOpen(h))
      ensures Valid()
    {
      StepPreserves(State(), UpstreamOpen(h));
      if h < |upstream| && upstream[h] == Connecting {
        upstream := upstream[h := Open];
        if openaiWs.Some? && openaiWs.value < |upstream| && upstream[openaiWs.value] == Open {
          outbox := outbox + [ToUpstream(openaiWs.value, SessionUpdate(Session16k))];
        }
      }
    }

    /** The message listener of socket h: the checks on message.type. */
    method HandleUpstreamMessage(h: nat, message: UpstreamMessage)
      requires Valid()
      modifies this
      ensures State() == Step(old(State()), UpstreamMessageEvent(h, message))
      ensures Valid()
    {
      StepPreserves(State(), UpstreamMessageEvent(h, message));
      match message
      case AudioDelta(delta) =>
        var mulawData := PcmToMulaw(delta);
        if twilioOpen {
          outbox := outbox + [ToTwilio(streamSid, mulawData[..])];
        }
      case SessionCreated =>
      case ErrorMessage(_) =>
      case OtherUpstreamType(_) =>
    }

    /** The error listener of socket h: logs only. */
    method HandleUpstreamError(h: nat)
      requires Valid()
      ensures State() == Step(State(), UpstreamError(h))
    {
    }

    /** The close listener of socket h logs; the socket is now closed. */
    method HandleUpstreamClose(h: nat)
      requires Valid()
      modifies this
      ensures State() == Step(old(State()), UpstreamClose(h))
      ensures Valid()
    {
      StepPreserves(State(), UpstreamClose(h));
      if h < |upstream| {
        upstream := upstream[h := Closed];
      }
    }
  }
}
