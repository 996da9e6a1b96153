# Voice agent relay: a Dafny model

The voice agent bridges a Twilio Media Stream (8 kHz mu-law telephony audio)
to an OpenAI Realtime session (16 kHz PCM16). This project models its core in
`server.js`:

- the single-sample mu-law codec `mulawToLinear` and `linearToMulaw`, including
  JavaScript's 32-bit bitwise operators (`mulaw.dfy`);
- the buffer transcoders `mulawToPcm` (decode, then upsample 2x by linear
  interpolation) and `pcmToMulaw` (average pairs, clamp, encode). Both fill
  Node Buffers in loops (`transcode.dfy`, on top of the little-endian int16
  layout of `readInt16LE`/`writeInt16LE` in `pcm16.dfy`);
- the per-connection handler: the Twilio message switch (`start`, `media`,
  `stop`), the upstream socket's open, message, error and close listeners, the
  Twilio error and close listeners, and the frame counter that triggers
  `input_audio_buffer.commit` every 20 forwarded frames (`relay.dfy`, with
  the order in which a run of frames reaches the upstream socket in
  `relay_runs.dfy`).

The handler is written twice:

- as pure step functions over a `CallState`, a function per listener, with
  lemmas about runs of events;
- as a class `Connection` whose fields are the closure variables and whose
  handler methods assign them as the source does. Each handler method's new
  state is the matching `Step` of the old one, and each keeps the handler
  invariant `Valid()`.

Sockets are represented by their ready states. Everything sent is recorded in
an append-only outbox of typed messages: upstream requests by socket number,
Twilio media messages, and every close that takes effect. A close of a socket
that is already closing or closed records nothing.

The transcoders are specified as compositions of sample-level functions:

- `TelephonyToUpstream = Serialize . Upsample . DecodeFrame`;
- `UpstreamToTelephony = EncodeFrame . Downsample . Deserialize`.

The methods are proved to fill their buffers with exactly those bytes.

## Model

| member | source | states |
|---|---|---|
| Mulaw.MulawToLinear | server.js:238-248 | the decoded sample is a nonzero int16 with magnitude in 132..32256, negative exactly when the byte is below 0x80 |
| Mulaw.LinearToMulaw | server.js:250-271 | the source's segment search (halving from 0x4000, exponent counted down from 7) and its 32-bit packing give the byte `MulawOf(input)` for every integer input |
| Mulaw.RoundTrip | server.js:238-271 | for 95 <= abs(s) <= 32734, encode then decode keeps the sign; with 2^k the highest power of two at most abs(s)+33, the magnitude error lies in [34 - 2^(k-5), 33 + 2^(k-5)], half a quantisation step around the bias |
| Mulaw.QuietSamplesLoseSign | server.js:251-268 | for abs(s) <= 94 the exponent ends at -1 or -2 and its two's-complement bits spill over sign and exponent: s and -s give the same byte, and it decodes to a loud negative value given in closed form |
| Mulaw.SilenceDecodesLoud | server.js:250-271 | sample 0 encodes to 0x1F, which decodes to -8448 |
| Mulaw.LoudSamplesHalve | server.js:254-268 | for abs(s) >= 32735 the mantissa reaches 16 and overflows into the exponent field: the byte is 0x0F or 0x8F and decodes to -16896 or +16896 |
| Mulaw.ClipsAt32767 | server.js:254 | inputs with magnitude at least 32767 encode like +-32767 |
| Mulaw.DecodeInjective | server.js:238-248 | distinct bytes decode to distinct samples |
| Mulaw.DecodePacked | server.js:238-248 | a byte packed from sign, exponent 0..7 and mantissa 0..15 decodes to +-(2m+33)*2^(e+2) |
| Transcode.RoundedMean | server.js:198 | Math.round((a+b)/2) for integers: 2r-1 <= a+b <= 2r, and r lies between a and b |
| Transcode.UpsampleAt | server.js:191-202 | upsampled sample 2i is input sample i; sample 2i+1 is the rounded mean of samples i and i+1, or of sample i alone at the end |
| Transcode.Interpolation | server.js:193-198 | each inserted sample lies between its neighbours; the last one equals the last input sample |
| Transcode.UpsampleInt16 | server.js:191-202 | upsampling int16 samples yields int16 samples, so writeInt16LE never throws there |
| Transcode.DownsampleUpsample | server.js:191-224 | upsampling then downsampling gives one sample per input sample, each between that sample and its successor, and unchanged on a flat stretch |
| Transcode.TelephonyToUpstreamSamples | server.js:177-205 | N mu-law bytes give 4N bytes (2N samples); sample 2i is the decoded byte i and sample 2i+1 the rounded mean of decoded bytes i and i+1 |
| Transcode.UpstreamToTelephonyBytes | server.js:207-236 | L PCM bytes give floor(L/4) mu-law bytes; byte i encodes the rounded mean of the samples at byte offsets 4i and 4i+2 |
| Transcode.EchoPath | server.js:177-236 | a frame sent up and straight back is its decoded samples upsampled, downsampled and re-encoded, with the frame's length |
| Transcode.EchoSteadyFrame | server.js:177-236 | a frame of one repeated byte comes back as its decode re-encoded |
| Transcode.MulawToPcm | server.js:177-205 | the returned buffer holds exactly `TelephonyToUpstream(mulawData)` |
| Transcode.DecodeBuffer | server.js:179-185 | the 8 kHz buffer holds the serialized decode of every byte |
| Transcode.UpsampleBuffer | server.js:188-202 | the 16 kHz buffer holds the serialized upsampling of the 8 kHz samples |
| Transcode.PcmToMulaw | server.js:207-236 | the returned buffer holds exactly `UpstreamToTelephony(pcmData)` |
| Transcode.DownsampleBuffer | server.js:209-224 | the 8 kHz buffer holds the serialized pairwise means; the fallback and the clamp never change a value |
| Transcode.EncodeBuffer | server.js:227-233 | byte i of the result is the encoding of 8 kHz sample i |
| Pcm16.FromBytes | server.js:192 | readInt16LE's value is an int16, negative exactly when the high byte is at least 0x80 |
| Pcm16.FromBytesOfValue | server.js:184 | a value written with writeInt16LE reads back unchanged |
| Pcm16.ValueOfBytes | server.js:217 | two bytes read as an int16 and written back are the same bytes |
| Pcm16.DeserializeSerialize | server.js:184-192 | int16 samples laid out in a buffer read back as the same samples |
| Pcm16.SerializeDeserialize | server.js:209-217 | reading a buffer's samples and laying them out again gives its bytes, without an odd trailing byte |
| Pcm16.WriteInt16LE | server.js:184 | writeInt16LE changes exactly the two bytes at the offset, low byte first |
| Relay.StepPreserves | server.js:36-173 | every listener keeps the handler invariant: openaiWs is the last socket created, appends = 20 x commits + counter with counter < 20, each commit follows an append to the same socket, and each socket is first sent session.update |
| Relay.RunPreserves | server.js:36-173 | the invariant holds after any sequence of events |
| Relay.BatchingFromStart | server.js:138-151 | from a new connection, after any events, the counter is the number of appends sent mod 20, and the commit count is that number div 20 |
| Relay.MediaRun | server.js:124-152 | n media frames with the current socket open send n appends; the commit count grows by floor((c+n)/20) and the counter becomes (c+n) mod 20, where c is the counter's start value |
| RelayRuns.MediaRunRequests | server.js:124-152 | n media frames with the current socket open: leaving commits aside, that socket receives exactly the appends of the frames' transcodes, in input order, and it stays the current, open socket |
| RelayRuns.MediaStepRequests | server.js:125-137 | one media frame with the current socket open: leaving commits aside, that socket receives exactly that frame's append |
| Relay.MediaForwardedOnlyWhenOpen | server.js:124-152 | a media frame changes nothing unless the current socket is open; then it appends the transcoded frame to that socket, followed by a commit exactly when the counter reaches 20, and the counter becomes (c+1) mod 20 |
| Relay.OpenSendsSessionUpdate | server.js:53-72 | when the current socket opens, the only request it has been sent is session.update with pcm16 at 16000 Hz both ways |
| Relay.StaleOpenSendsNothing | server.js:53-72 | a replaced socket that opens while the current one still connects is marked open, and nothing is sent |
| Relay.RestartLeaksHandle | server.js:118-122 | a second start creates a new connecting socket and leaves the previous open one unclosed, with the counter and the outbox unchanged |
| Relay.ReplacedSocketGetsNothing | server.js:40-173 | no event sends a request to a socket other than the current one |
| Relay.AudioDeltaToTwilio | server.js:77-93 | an audio delta becomes one Twilio media message tagged with the current streamSid, holding floor(L/4) bytes, exactly while Twilio is open; otherwise nothing changes |
| Relay.StopClosesUpstream | server.js:155-160 | stop closes the current connecting or open socket and changes nothing else: the counter is not reset, and streamSid, openaiWs and the other sockets are kept. Media after it is dropped |
| Relay.TwilioCloseClosesUpstream | server.js:168-173 | Twilio's close closes the current socket and keeps the counter, streamSid, openaiWs and the other sockets; nothing more goes to Twilio |
| Relay.TwilioClosedStaysSilent | server.js:84 | once Twilio has closed, no event sends anything to it |
| Relay.OutboxOnlyGrows | server.js:36-173 | each event adds at most two messages and never changes those already sent |
| Relay.CloseIdempotent | server.js:155-160 | stop twice has the effect of stop once |
| Relay.ErrorsOnlyLog | server.js:95-106 | the error listeners and the session.created and error messages change nothing |
| Relay.Connection.constructor | server.js:36-40 | a new connection has no stream, no upstream socket and a zero counter, and satisfies the invariant |
| Relay.Connection.ConnectToOpenAI | server.js:43-51 | a new connecting socket becomes openaiWs; nothing else changes |
| Relay.Connection.CloseOpenAI | server.js:157-159 | the new state is `CloseCurrent` of the old one |
| Relay.Connection.HandleTwilioMessage | server.js:114-162 | the new state is the `Step` for that Twilio message, and the invariant is kept |
| Relay.Connection.HandleTwilioError | server.js:164-166 | the state is unchanged |
| Relay.Connection.HandleTwilioClose | server.js:168-173 | the new state is the `Step` for Twilio's close, and the invariant is kept |
| Relay.Connection.HandleUpstreamOpen | server.js:53-72 | the new state is the `Step` for the socket opening, and the invariant is kept |
| Relay.Connection.HandleUpstreamMessage | server.js:74-102 | the new state is the `Step` for the upstream message, and the invariant is kept |
| Relay.Connection.HandleUpstreamError | server.js:104-106 | the state is unchanged |
| Relay.Connection.HandleUpstreamClose | server.js:108-110 | the new state is the `Step` for the socket closing: it is now closed, and the invariant is kept |

## Left out

- The Express HTTP server, its routes and port binding (server.js:1-31), and the WebSocket server construction (server.js:34), are outside the model.
- The upstream URL, model name and authorization headers (server.js:44-51) are left out. A socket is only a number and a ready state.
- JSON parsing and serialisation, and base64 encoding and decoding, are left out. Messages are typed records and payloads are byte sequences, so malformed JSON and missing fields are not modelled.
- Logging and timestamps (`console.log`, `new Date()`) have no effect on the state, so they are left out.
- Concurrency between connections is left out. Each connection's listeners run one at a time, and a run is a sequence of `Event`s in any interleaving.
- `test-server.js` is not part of this model. The 24 kHz variant (ratio 3, nearest-neighbour hold, decimation, threshold 25) is not part of this model either.
- Relay.SendToCurrent: with the `ws` library, `send` on a socket that is still connecting throws, and the exception escapes the listener. The model records it as not delivered.
- Relay.CloseCurrent: `close` on a connecting socket aborts it and emits an error and a close later. The model moves a connecting or open socket to Closing and leaves the later events to `UpstreamClose`.
- Relay.Connection.HandleTwilioMessage: `audioFrameCount` starts undefined on the Twilio socket, and `!audioFrameCount` resets it to 0 before the increment. The model starts it at 0, which gives the same counts.
- Transcode.MulawToPcm and Transcode.PcmToMulaw take their input as a value (`seq<byte>`), not as a Buffer that could alias the result. Each of their loops is a method of its own (DecodeBuffer, UpsampleBuffer, DownsampleBuffer, EncodeBuffer), and the source's functions are their compositions.
- Transcode.RoundedMean: `Math.round` of a half-integer rounds toward +infinity, also for negatives, which is `(a+b+1) div 2` with floor division. Samples are integers, so no other floating-point behaviour arises.
- `server.js` hardcodes 16 kHz and a threshold of 20 frames. It never resets the counter on `start` or `stop` (see Relay.RestartLeaksHandle and Relay.StopClosesUpstream), and it only logs errors (see Relay.ErrorsOnlyLog). The model follows it.
- For L bytes of PCM, `pcmToMulaw` produces floor(L/4) outputs (server.js:209-213), so everything after the last whole pair of samples is dropped: an odd trailing byte, and also a whole trailing sample when L = 4k+2 or 4k+3. For example, L = 6 holds 3 samples and gives 1 byte. The model does the same (Transcode.UpstreamToTelephonyBytes).
