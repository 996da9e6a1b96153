/** The buffer transcoders of server.js: mulawToPcm (8 kHz mu-law from the
    telephony side to 16 kHz PCM16 for the upstream session) and pcmToMulaw
    (the way back). Each one fills freshly allocated Buffers in loops; the
    functions below say what the filled buffers hold. */
module Transcode {
  import opened Pcm16
  import opened Mulaw

  function Min(a: int, b: int): int {
    if a < b then a else b
  }

  function Max(a: int, b: int): int {
    if a < b then b else a
  }

  /** Math.round((a + b) / 2): the mean of a and b, a half rounded toward +infinity. */
  function RoundedMean(a: int, b: int): (r: int)
    ensures 2 * r - 1 <= a + b <= 2 * r
    ensures Min(a, b) <= r <= Max(a, b)
  {
    (a + b + 1) / 2
  }

  /** The sample after index i, or the sample itself when it is the last one. */
  function Next(s: seq<int>, i: nat): int
    requires i < |s|
  {
    if i + 1 < |s| then s[i + 1] else s[i]
  }

  /** The 8 kHz samples a mu-law frame decodes to, one per byte. */
  function DecodeFrame(mulaw: seq<byte>): seq<int> {
    seq(|mulaw|, i requires 0 <= i < |mulaw| => MulawToLinear(mulaw[i]))
  }

  /** The mu-law bytes of a run of samples, one per sample. */
  function EncodeFrame(s: seq<int>): seq<byte> {
    seq(|s|, i requires 0 <= i < |s| => MulawOf(s[i]))
  }

  /** 8 kHz to 16 kHz: every sample, followed by the rounded mean of it and its
      successor. */
  function Upsample(s: seq<int>): seq<int>
    decreases |s|
  {
    if |s| == 0 then [] else [s[0], RoundedMean(s[0], Next(s, 0))] + Upsample(s[1..])
  }

  /** 16 kHz to 8 kHz: the rounded mean of each pair; an odd last sample is dropped. */
  function Downsample(s: seq<int>): seq<int> {
    seq(|s| / 2, i requires 0 <= i < |s| / 2 => RoundedMean(s[2 * i], s[2 * i + 1]))
  }

  /** mulawToPcm as a function of the bytes: decode, upsample, serialize. */
  function TelephonyToUpstream(mulaw: seq<byte>): seq<byte> {
    Serialize(Upsample(DecodeFrame(mulaw)))
  }

  /** pcmToMulaw as a function of the bytes: read samples, downsample, encode. */
  function UpstreamToTelephony(pcm: seq<byte>): seq<byte> {
    EncodeFrame(Downsample(Deserialize(pcm)))
  }

  // ---------------------------------------------------------------------
  // Properties of the resampling

  lemma {:induction false} UpsampleLength(s: seq<int>)
    ensures |Upsample(s)| == 2 * |s|
  {
    if |s| > 0 {
      UpsampleLength(s[1..]);
    }
  }

  /** Sample 2i of the upsampled sequence is input sample i, and sample 2i+1
      is the rounded mean of input samples i and i+1 (of i alone at the end). */
  lemma {:induction false} UpsampleAt(s: seq<int>, i: nat)
    requires i < |s|
    ensures |Upsample(s)| == 2 * |s|
    ensures Upsample(s)[2 * i] == s[i]
    ensures Upsample(s)[2 * i + 1] == RoundedMean(s[i], Next(s, i))
  {
    UpsampleLength(s);
    if i > 0 {
      UpsampleAt(s[1..], i - 1);
      assert Next(s[1..], i - 1) == Next(s, i);
    }
  }

  /** Each inserted sample lies between its two neighbours, and the last one
      repeats the last input sample. */
  lemma Interpolation(s: seq<int>, i: nat)
    requires i < |s|
    ensures |Upsample(s)| == 2 * |s|
    ensures Min(s[i], Next(s, i)) <= Upsample(s)[2 * i + 1] <= Max(s[i], Next(s, i))
    ensures i == |s| - 1 ==> Upsample(s)[2 * i + 1] == Upsample(s)[2 * i]
  {
    UpsampleAt(s, i);
  }

  lemma UpsampleInt16(s: seq<int>)
    requires AllInt16(s)
    ensures AllInt16(Upsample(s))
  {
    UpsampleLength(s);
    forall k | 0 <= k < |Upsample(s)|
      ensures IsInt16(Upsample(s)[k])
    {
      UpsampleAt(s, k / 2);
    }
  }

  lemma DownsampleInt16(s: seq<int>)
    requires AllInt16(s)
    ensures AllInt16(Downsample(s))
  {
  }

  /** Downsampling what was upsampled gives back one sample per input sample,
      each between that input sample and its successor; a stretch of equal
      samples comes back unchanged. */
  lemma DownsampleUpsample(s: seq<int>)
    ensures |Downsample(Upsample(s))| == |s|
    ensures forall i :: 0 <= i < |s| ==>
      Min(s[i], Next(s, i)) <= Downsample(Upsample(s))[i] <= Max(s[i], Next(s, i))
    ensures forall i :: 0 <= i < |s| && s[i] == Next(s, i) ==> Downsample(Upsample(s))[i] == s[i]
  {
    UpsampleLength(s);
    forall i | 0 <= i < |s|
      ensures Min(s[i], Next(s, i)) <= Downsample(Upsample(s))[i] <= Max(s[i], Next(s, i))
      ensures s[i] == Next(s, i) ==> Downsample(Upsample(s))[i] == s[i]
    {
      UpsampleAt(s, i);
    }
  }

  // ---------------------------------------------------------------------
  // Properties of the two transcoders

  /** N mu-law bytes give 2N samples (4N bytes); even sample 2i is the decoded
      byte i, odd sample 2i+1 the rounded mean of decoded bytes i and i+1. */
  lemma TelephonyToUpstreamSamples(mulaw: seq<byte>, i: nat)
    requires i < |mulaw|
    ensures |TelephonyToUpstream(mulaw)| == 4 * |mulaw|
    ensures var out := Deserialize(TelephonyToUpstream(mulaw));
      var dec := DecodeFrame(mulaw);
      |out| == 2 * |mulaw| &&
      out[2 * i] == MulawToLinear(mulaw[i]) &&
      out[2 * i + 1] == RoundedMean(dec[i], Next(dec, i))
  {
    var dec := DecodeFrame(mulaw);
    UpsampleInt16(dec);
    DeserializeSerialize(Upsample(dec));
    UpsampleAt(dec, i);
  }

  /** L bytes of PCM16 give floor(L / 4) mu-law bytes; byte i encodes the
      rounded mean of input samples 2i and 2i+1. */
  lemma UpstreamToTelephonyBytes(pcm: seq<byte>, i: nat)
    requires i < |pcm| / 4
    ensures |UpstreamToTelephony(pcm)| == |pcm| / 4
    ensures UpstreamToTelephony(pcm)[i] ==
      MulawOf(RoundedMean(ReadInt16LE(pcm, 4 * i), ReadInt16LE(pcm, 4 * i + 2)))
  {
    DownsampledAt(pcm, i, 4 * i, 4 * i + 2);
  }

  /** A frame that goes up to the session and comes straight back is the
      encoding of its decoded samples, upsampled and downsampled again: the
      serialization in between loses nothing. With DownsampleUpsample, each
      byte encodes a value between two neighbouring decoded samples. */
  lemma EchoPath(mulaw: seq<byte>)
    ensures UpstreamToTelephony(TelephonyToUpstream(mulaw)) ==
      EncodeFrame(Downsample(Upsample(DecodeFrame(mulaw))))
    ensures |UpstreamToTelephony(TelephonyToUpstream(mulaw))| == |mulaw|
  {
    var dec := DecodeFrame(mulaw);
    UpsampleInt16(dec);
    DeserializeSerialize(Upsample(dec));
    DownsampleUpsample(dec);
  }

  /** A frame of one repeated byte comes back as that byte's decode re-encoded. */
  lemma EchoSteadyFrame(mulaw: seq<byte>)
    requires forall i :: 0 <= i < |mulaw| ==> mulaw[i] == mulaw[0]
    ensures UpstreamToTelephony(TelephonyToUpstream(mulaw)) == EncodeFrame(DecodeFrame(mulaw))
  {
    EchoPath(mulaw);
    var dec := DecodeFrame(mulaw);
    DownsampleUpsample(dec);
    forall i | 0 <= i < |dec|
      ensures Downsample(Upsample(dec))[i] == dec[i]
    {
      assert dec[i] == Next(dec, i);
    }
  }

  // ---------------------------------------------------------------------
  // The transcoders as the source writes them

  /** The first n bytes of a agree with those of b. */
  ghost predicate Agree(a: seq<byte>, b: seq<byte>, n: nat) {
    n <= |a| && n <= |b| && forall j :: 0 <= j < n ==> a[j] == b[j]
  }

  /** Storing byte e[k] at index k extends agreement with e. */
  lemma AgreeAfterStore(before: seq<byte>, after: seq<byte>, e: seq<byte>, k: nat)
    requires k < |before| && k < |e|
    requires Agree(before, e, k)
    requires after == before[k := e[k]]
    ensures Agree(after, e, k + 1)
  {
  }

  lemma AgreeAll(a: seq<byte>, b: seq<byte>)
    requires |a| == |b| && Agree(a, b, |a|)
    ensures a == b
  {
  }

  /** The pair averaged into 8 kHz sample i of pcmToMulaw's first loop. */
  lemma DownsampledAt(pcm: seq<byte>, i: nat, first: nat, second: nat)
    requires 4 * i + 4 <= |pcm| && first == 4 * i && second == 4 * i + 2
    ensures |Downsample(Deserialize(pcm))| == |pcm| / 4
    ensures Downsample(Deserialize(pcm))[i] == RoundedMean(ReadInt16LE(pcm, first), ReadInt16LE(pcm, second))
    ensures IsInt16(Downsample(Deserialize(pcm))[i])
  {
    var s := Deserialize(pcm);
    assert s[2 * i] == ReadInt16LE(pcm, 4 * i);
    assert s[2 * i + 1] == ReadInt16LE(pcm, 4 * i + 2);
  }

  /** Sample i of a buffer, read at byte offset 2i. */
  lemma DeserializedAt(bytes: seq<byte>, i: nat, offset: nat)
    requires i < |bytes| / 2 && offset == 2 * i
    ensures Deserialize(bytes)[i] == ReadInt16LE(bytes, offset)
  {
  }

  /** mulawToPcm(mulawData): decode into an 8 kHz PCM16 buffer of 2N bytes,
      then interpolate it into the 16 kHz buffer of 4N bytes. */
  method MulawToPcm(mulawData: seq<byte>) returns (pcm16k: array<byte>)
    ensures pcm16k[..] == TelephonyToUpstream(mulawData)
  {
    ghost var dec := DecodeFrame(mulawData);
    assert AllInt16(dec);
    DeserializeSerialize(dec);
    var pcm8k := DecodeBuffer(mulawData);
    pcm16k := UpsampleBuffer(pcm8k[..]);
  }

  /** The first loop of mulawToPcm: each mu-law byte decoded and written as a
      little-endian 16-bit sample. */
  method DecodeBuffer(mulawData: seq<byte>) returns (pcm8k: array<byte>)
    ensures pcm8k[..] == Serialize(DecodeFrame(mulawData))
  {
    ghost var dec := DecodeFrame(mulawData);
    pcm8k := new byte[|mulawData| * 2];
    var i := 0;
    while i < |mulawData|
      invariant 0 <= i <= |mulawData|
      invariant SerializedPrefix(pcm8k[..], dec, i)
    {
      var mulaw := mulawData[i];
      var linear := MulawToLinear(mulaw);
      ghost var before := pcm8k[..];
      WriteInt16LE(pcm8k, linear, i * 2);
      SerializedPrefixAfterWrite(before, pcm8k[..], dec, i, i * 2, linear);
      i := i + 1;
    }
    SerializedWhole(pcm8k[..], dec);
  }

  /** The second loop of mulawToPcm: every 8 kHz sample, then the rounded mean
      of it and the next one (of it and itself for the last one). */
  method UpsampleBuffer(pcm8k: seq<byte>) returns (pcm16k: array<byte>)
    requires |pcm8k| % 2 == 0
    ensures pcm16k[..] == Serialize(Upsample(Deserialize(pcm8k)))
  {
    ghost var dec := Deserialize(pcm8k);
    ghost var up := Upsample(dec);
    UpsampleLength(dec);
    var samplesIn := |pcm8k| / 2;
    pcm16k := new byte[samplesIn * 2 * 2];
    var i := 0;
    while i < samplesIn
      invariant 0 <= i <= samplesIn
      invariant SerializedPrefix(pcm16k[..], up, 2 * i)
    {
      var currentSample := ReadInt16LE(pcm8k, i * 2);
      DeserializedAt(pcm8k, i, i * 2);
      var nextSample := currentSample;
      if i + 1 < samplesIn {
        nextSample := ReadInt16LE(pcm8k, (i + 1) * 2);
        DeserializedAt(pcm8k, i + 1, (i + 1) * 2);
      }
      assert nextSample == Next(dec, i);
      var outputIndex := i * 2;
      var interpolatedSample := RoundedMean(currentSample, nextSample);
      UpsampleAt(dec, i);
      assert currentSample == up[outputIndex] && interpolatedSample == up[outputIndex + 1];
      ghost var before := pcm16k[..];
      WriteInt16LE(pcm16k, currentSample, outputIndex * 2);
      SerializedPrefixAfterWrite(before, pcm16k[..], up, outputIndex, outputIndex * 2, currentSample);
      before := pcm16k[..];
      WriteInt16LE(pcm16k, interpolatedSample, (outputIndex + 1) * 2);
      SerializedPrefixAfterWrite(before, pcm16k[..], up, outputIndex + 1, (outputIndex + 1) * 2, interpolatedSample);
      i := i + 1;
    }
    SerializedWhole(pcm16k[..], up);
  }

  /** pcmToMulaw(pcmData): average each pair of 16 kHz samples into an 8 kHz
      PCM16 buffer, then encode that buffer sample by sample. */
  method PcmToMulaw(pcmData: seq<byte>) returns (mulawData: array<byte>)
    ensures mulawData[..] == UpstreamToTelephony(pcmData)
  {
    var pcm8k := DownsampleBuffer(pcmData);
    mulawData := EncodeBuffer(pcm8k[..]);
    DownsampleInt16(Deserialize(pcmData));
    DeserializeSerialize(Downsample(Deserialize(pcmData)));
  }

  /** The first loop of pcmToMulaw. For L input bytes it runs floor(L / 4)
      times, so the second sample of each pair always exists and the fallback
      to the first one is never taken; the mean of two int16 values is an
      int16 value, so the clamp to 16 bits never changes it. */
  method DownsampleBuffer(pcmData: seq<byte>) returns (pcm8k: array<byte>)
    ensures pcm8k[..] == Serialize(Downsample(Deserialize(pcmData)))
  {
    ghost var down := Downsample(Deserialize(pcmData));
    // samplesIn = pcmData.length / 2 is fractional for an odd length;
    // samplesOut = Math.floor(samplesIn / 2) is floor(L / 4) either way.
    var samplesOut := |pcmData| / 4;
    pcm8k := new byte[samplesOut * 2];
    var i := 0;
    while i < samplesOut
      invariant 0 <= i <= samplesOut
      invariant SerializedPrefix(pcm8k[..], down, i)
    {
      var inputIndex := i * 2;
      var sample1 := ReadInt16LE(pcmData, inputIndex * 2);
      // inputIndex + 1 < samplesIn, with samplesIn the exact quotient L / 2
      var sample2 := if 2 * (inputIndex + 1) < |pcmData|
        then ReadInt16LE(pcmData, (inputIndex + 1) * 2) else sample1;
      DownsampledAt(pcmData, i, inputIndex * 2, (inputIndex + 1) * 2);
      assert sample2 == ReadInt16LE(pcmData, (inputIndex + 1) * 2);
      var avgSample := RoundedMean(sample1, sample2);
      var clampedSample := Max(-32768, Min(32767, avgSample));
      assert clampedSample == down[i];
      ghost var before := pcm8k[..];
      WriteInt16LE(pcm8k, clampedSample, i * 2);
      SerializedPrefixAfterWrite(before, pcm8k[..], down, i, i * 2, clampedSample);
      i := i + 1;
    }
    SerializedWhole(pcm8k[..], down);
  }

  /** The second loop of pcmToMulaw: every 8 kHz sample encoded to one byte. */
  method EncodeBuffer(pcm8k: seq<byte>) returns (mulawData: array<byte>)
    requires |pcm8k| % 2 == 0
    ensures mulawData[..] == EncodeFrame(Deserialize(pcm8k))
  {
    ghost var encoded := EncodeFrame(Deserialize(pcm8k));
    mulawData := new byte[|pcm8k| / 2];
    var i := 0;
    ghost var k := 0;
    while i < |pcm8k|
      invariant 0 <= k <= |encoded| && i == 2 * k
      invariant Agree(mulawData[..], encoded, k)
    {
      var linear := ReadInt16LE(pcm8k, i);
      DeserializedAt(pcm8k, k, i);
      var mulaw := LinearToMulaw(linear);
      assert i / 2 == k && mulaw == encoded[k];
      ghost var before := mulawData[..];
      mulawData[i / 2] := mulaw;
      AgreeAfterStore(before, mulawData[..], encoded, k);
      i := i + 2;
      k := k + 1;
    }
    AgreeAll(mulawData[..], encoded);
  }
}
