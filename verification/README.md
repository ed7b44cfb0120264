# Ekaette: verified models of the audio, telephony and transaction engines

Ekaette is a voice assistant for a trade-in shop. Most of its code connects services; under it sit
engines with state, arithmetic or framing of their own. This project models those engines in Dafny and
proves what they promise. Where the source updates objects in place the model is a class whose methods
are proved against transition functions on values, and the theorems about whole runs are lemmas about
those functions.

| engine | source | files |
|---|---|---|
| playback ring buffer, pre-buffering and fade-out | `frontend/public/pcm-player-processor.js` | `Playback*.dfy` |
| mu-law codec | `sip_bridge/audio_codec.py` | `MuLaw.dfy` |
| 3:2 resampler | `sip_bridge/codec_bridge.py` | `Resample.dfy` |
| RTP packets and 20 ms pacing | `sip_bridge/rtp.py` | `Rtp.dfy` |
| outbound phone audio: re-framing, queue, packets | `sip_bridge/session.py` | `Outbound*.dfy` |
| SIP stream parser and printer | `sip_bridge/sip_tls.py` | `SipText.dfy`, `SipTextFacts.dfy`, `SipSpec.dfy`, `SipTls.dfy`, `SipRoundTrip.dfy`, `SipReading.dfy` |
| digest authentication | `sip_bridge/sip_auth.py` | `SipAuth*.dfy` |
| SIP server tables and call handshake | `sip_bridge/wa_main.py` | `Wa*.dfy` |
| booking and cancelling | `app/tools/booking_tools.py` | `Booking*.dfy` |
| grades, offers, negotiation | `app/tools/valuation_tools.py` | `Valuation.dfy` |
| cursors over the event log | `app/agents/ekaette_router/agent.py`, `app/agents/dedup.py` | `EventLog.dfy` |
| voice detection and chunking in the recorder | `frontend/public/pcm-recorder-processor.js` | `Recorder.dfy` |

`Options.dfy`, `Arith.dfy`, `Seqs.dfy`, `Bytes.dfy` and `Dicts.dfy` hold what the models share: the option type,
minimum and maximum, ends and concatenations of sequences, 16-bit little-endian samples, and Python
dictionaries with their insertion order.

## What the theorems say

- **Playback.** The circular array is a drop-oldest queue behind a gate. After an interrupt the fade takes
  min(fade length, queued) samples at gains falling in equal steps; it stays clear of newer samples iff the ring
  overwrote no more than the fade leaves over, and the queue afterwards is exactly the newer samples iff
  they are fewer than the capacity. The branch for a fade without a mark is never taken. What any block puts out
  is stated on the history alone: the samples sent, what was heard so far and the thresholds.
- **Outbound audio.** For every way the 24 kHz stream arrives in pieces, the RTP payloads are the mu-law of
  the 3:1 decimation of the consumed prefix of the *stream*, although the code works frame by frame. Payload
  byte i is the code of the sample in stream bytes 6i and 6i+1.
- **SIP.** For every message, printing and parsing gives the normalized message back and leaves what follows
  alone iff the normalized message is well formed and within the size and header limits; beyond a limit
  the reader raises. Pipelined messages are read as exactly those messages. On any other stream of lines the
  answer is stated as well: which lines fault, which streams are closed, and which body a message gets.
- **Digest and calls.** But for a collision between two texts that are really hashed, digests have equal
  responses iff they agree on everything that goes into them, and a header built from the server's own
  challenge verifies for exactly the user name, password and method it was made with. Over any run, a handshake
  ends in 200 for exactly the configured credentials.
- **Tables.** In every run the recorded calls and the open challenges are bounded, and an accepted call
  carries the nonce of its open challenge. Every live task is recorded throughout a run iff each step meets
  a stated condition; runs that break it are given.
- **Bookings.** Over every interleaving of creates and cancels with fresh ids, each cancelled at most once, a
  slot has at most one holder and is unavailable exactly while it has one. Without the last assumption this
  holds throughout a run iff no cancel reopens a slot that another booking holds.
- **The rest.** Haggling ends in the outcome its start determines; grades and offers are monotone; log
  batches are saved exactly once, in order; voice signals alternate with their stated distances.

## Where the code and its description differ

The model follows the code.

- `process_negotiation` promises to accept an ask within 5% of the offer. The counter is floored, so an offer
  below 20 that is one unit short never moves: `Valuation.SmallOffersStall`.
- `cancel_booking` does not read the status again before it reopens the slot, so a second cancel of the same
  booking reopens a slot that someone else has booked meanwhile: `BookingRuns.SecondCancelBreaksSafety`.
- The done callback of a call's task pops both tables by call id. When a call id is accepted again before the
  old task is done, the end of the old task removes the new entry (`WaRuns.AcceptExactly`,
  `WaLimits.ReuseLeavesLive`). So the limit on calls is a limit on recorded calls: `WaLimits.ReusesLeaveLive`.
- `stop` cancels the recorded tasks, waits for them and then clears both tables, but the server still accepts
  while it waits. A call accepted then is live and unrecorded afterwards: `WaRuns.AcceptedDuringStop`,
  `WaLimits.StopLosesTask`.
- The server finds the nonce it issued with a search for `nonce="` in its own challenge; a realm that ends
  with `nonce=` makes it remember the wrong text: `SipAuthDigest.IssuedNonceExactly`.
- For the `-sess` algorithms without a qop, `build_auth_header` computes with a nonce count and client nonce
  it does not send, so the header never verifies: `SipAuthDigest.BuiltVerifies`.
- `RTPPacket.serialize` always writes 0x80 as its first byte; padding, extension and CSRC bits of a parsed
  packet are lost: `Rtp.KeptExactly`.
- A call without an open challenge is not held to any nonce: the right answer to any nonce at all, issued,
  evicted or never issued, is accepted: `WaHandshake.NothingPendingAccepts`.
- The fallback branch and the clamp of `resample_24k_to_16k` are never needed: `Resample.Interpolate`.
- The voice detector's minimum of 16 speaking blocks never decides an end, as 48 silent blocks come
  first: `Recorder.SignalsAlternate`.

## Model

| member | source | states |
|---|---|---|
| Playback.Player.constructor | frontend/public/pcm-player-processor.js:19-50 | an empty ring, buffering, nothing played, for any capacity, thresholds and fade length |
| Playback.Player.AvailableSamples | frontend/public/pcm-player-processor.js:108-113 | the length of the queue the ring represents, wrapped or not |
| Playback.Player.Enqueue | frontend/public/pcm-player-processor.js:115-126 | the whole ring after the chunk: samples scaled, oldest overwritten when full |
| Playback.Player.EndOfAudio | frontend/public/pcm-player-processor.js:58-73 | sets the mark and the fade, or empties at once when nothing is queued; buffering restarts at the base threshold |
| Playback.Player.Process | frontend/public/pcm-player-processor.js:142-236 | the state and the whole output of a block in each phase: fading, buffering, playing |
| Playback.Player.FadeFrames | frontend/public/pcm-player-processor.js:149-161 | the first samples of the queue scaled by the falling gain, then zeros; the ring itself unchanged |
| Playback.Player.Fade | frontend/public/pcm-player-processor.js:148-172 | a fade that runs out jumps to its mark and forgets it |
| Playback.Player.Silence | frontend/public/pcm-player-processor.js:183-187 | a block of zeros |
| Playback.Player.Play | frontend/public/pcm-player-processor.js:191-210 | the queue's prefix then zeros, an underrun flagged iff the block is longer than the queue |
| Playback.Player.AdaptThreshold | frontend/public/pcm-player-processor.js:212-228 | the next gate: grown on an underrun, decayed after a calm stretch, all else unchanged |
| PlaybackRuns.PushQueue | frontend/public/pcm-player-processor.js:116-125 | writing one sample to the ring appends it to the queue, which keeps its newest N-1 |
| PlaybackRuns.EnqueueQueue | frontend/public/pcm-player-processor.js:115-126 | a chunk of any length, longer than the ring too, leaves the newest N-1 samples of queue and chunk |
| PlaybackRuns.RingRefinesFifo | frontend/public/pcm-player-processor.js:108-228 | over every run without an interrupt, ring and output equal those of a plain drop-oldest queue behind the same gate |
| PlaybackRuns.StepKeepsInv | frontend/public/pcm-player-processor.js:58-228 | every event keeps: fade within the queue, a mark iff fading, threshold between base and maximum |
| PlaybackRuns.RunKeepsInv | frontend/public/pcm-player-processor.js:58-228 | that invariant over every run |
| PlaybackRuns.FadeAlwaysHasMark | frontend/public/pcm-player-processor.js:162-170 | in every reachable state a fade has its mark and enough samples, so the reset without a mark is unreachable |
| PlaybackFade.FadeTracks | frontend/public/pcm-player-processor.js:148-161 | while a fade lasts, each faded sample is the stream sample at its position, and the queue is the stream's remainder |
| PlaybackFade.FadeBoundary | frontend/public/pcm-player-processor.js:58-73 | for every interleaving: the fade spares newer samples iff overwriting stayed within the surplus; the queue after it is exactly the newer samples iff fewer than N |
| PlaybackFade.FadeBoundaryWithoutOverflow | frontend/public/pcm-player-processor.js:148-172 | without overflow the oldest n samples fade in order at gains n/L, (n-1)/L, ..., 1/L, then silence, and exactly the newer samples remain |
| PlaybackFade.InterruptRestartsBuffering | frontend/public/pcm-player-processor.js:68-71 | after the fade, blocks are silent until the start threshold is reached again, and the re-buffer threshold is at its base |
| PlaybackGating.Conservation | frontend/public/pcm-player-processor.js:175-210 | played plus queued plus overwritten equals arrived; with nothing overwritten, in order |
| PlaybackGating.GapFreeWhileStocked | frontend/public/pcm-player-processor.js:191-210 | blocks asking for no more than is queued all play without padding, whatever chunks arrive between |
| PlaybackGating.ResumeIsGapFree | frontend/public/pcm-player-processor.js:175-189 | from any reachable buffering state: silence below the threshold, and at least floor(threshold / block) gap-free blocks from it on |
| PlaybackGating.PlayedExactly | frontend/public/pcm-player-processor.js:194-207 | since the start, or since a fade ran out, the played flag holds iff something has been heard |
| PlaybackGating.BlockExactly | frontend/public/pcm-player-processor.js:174-210 | any block on the history alone: while filling, silence below the start threshold, or below the re-buffer threshold once something was heard; otherwise the queue padded with zeros, and filling again after an underrun |
| PlaybackGating.HeardIsSent | frontend/public/pcm-player-processor.js:116-120 | without overflow, what was heard and then what is queued are the samples sent over 32768, in order |
| PlaybackGating.RunAdapts | frontend/public/pcm-player-processor.js:175-228 | in a run whose playing blocks all underrun, or none does, each playing block adapts the threshold once; chunks and silent blocks do not |
| PlaybackGating.ThresholdAfterUnderruns | frontend/public/pcm-player-processor.js:212-218 | over any run without a full calm stretch, the threshold is that at the start and a growth step for every underrun, capped at the maximum |
| PlaybackGating.ThresholdAfterCalm | frontend/public/pcm-player-processor.js:219-228 | over a run without underruns the threshold stays until the calm stretch is full, and then falls by one decay step, not below the base |
| PlaybackGating.WorkletResumes | frontend/public/pcm-player-processor.js:22-34 | with the worklet's own constants and 128-frame blocks: 22 gap-free blocks after a start, 8 after a resume |
| PlaybackGating.WorkletResumesExactly | frontend/public/pcm-player-processor.js:22-37 | with the worklet's constants, a block after n underruns plays exactly from min(2880, 1080 + 240n) queued samples on |
| PlaybackGating.WorkletTimes | frontend/public/pcm-player-processor.js:22-49 | ring, thresholds, fade and adaptation steps in milliseconds |
| MuLaw.LinearToUlaw | sip_bridge/audio_codec.py:49-69 | the exponent search finds the segment of the clipped, biased magnitude, for every integer |
| MuLaw.BuildUlawTable | sip_bridge/audio_codec.py:15-27 | 256 entries, each the decoding of its byte |
| MuLaw.TableSample | sip_bridge/audio_codec.py:20-27 | the shift-and-mask formula is sign and level of the complemented byte |
| MuLaw.Accuracy | sip_bridge/audio_codec.py:49-69 | within the clipping range 32 times the error is at most the magnitude plus 132 |
| MuLaw.DecodeTable | sip_bridge/audio_codec.py:20-27 | the level of every code by segment and step, as in tables 2a and 2b of G.711 |
| MuLaw.WithinCell | sip_bridge/audio_codec.py:49-69 | every sample decodes to the middle of its cell; cells are 8 wide and double at 256 - 132, 512 - 132, and so on |
| MuLaw.Monotone | sip_bridge/audio_codec.py:49-69 | decoding after encoding preserves order over all integers |
| MuLaw.Odd | sip_bridge/audio_codec.py:54-57 | decoding after encoding commutes with negation |
| MuLaw.Saturates | sip_bridge/audio_codec.py:58-60 | the range is -32124 to 32124, reached by everything clipped |
| MuLaw.EncodeDecode | sip_bridge/audio_codec.py:20-69 | every byte survives decoding and encoding, except that 0x7F becomes 0xFF |
| MuLaw.Idempotent | sip_bridge/audio_codec.py:20-69 | a second trip through the codec changes nothing |
| MuLaw.Pcm16ToUlawLoop | sip_bridge/audio_codec.py:39-46 | byte i is the code of the little-endian sample in bytes 2i and 2i+1; odd lengths refused |
| MuLaw.ByteRoundTrip | sip_bridge/audio_codec.py:33-46 | whole buffers come back with only their negative zeros replaced |
| Resample.Interpolate | sip_bridge/codec_bridge.py:49-60 | one output sample; fallback branch and clamp leave it as the interpolation gives it |
| Resample.HalfwayExactly | sip_bridge/codec_bridge.py:55 | half the sum of the neighbours, rounded towards zero |
| Resample.Resample24kTo16kLoop | sip_bridge/codec_bridge.py:38-61 | two samples for three: the first, and the middle of the other two, truncated towards zero |
| Resample.FramewiseResample | sip_bridge/codec_bridge.py:38-61 | resampling a stream in pieces of whole sample triples is resampling the stream |
| Rtp.ParseSerialize | sip_bridge/rtp.py:33-67 | a packet parses back with its fields reduced to their widths and version 2 |
| Rtp.WireLayout | sip_bridge/rtp.py:54-67 | every byte of the packet, fields most significant byte first |
| Rtp.SerializeParse | sip_bridge/rtp.py:33-67 | what parses, and that re-serializing changes the first byte only |
| Rtp.KeptExactly | sip_bridge/rtp.py:54-67 | re-serializing is exact iff the first byte is 0x80 |
| Rtp.RTPTimer.NextDeadline | sip_bridge/rtp.py:77-80 | counts a frame and returns its time on the baseline |
| Rtp.RTPTimer.WaitNextFrame | sip_bridge/rtp.py:82-96 | sleeps to the deadline, or restarts the baseline when more than 100 ms late |
| Rtp.DeadlinesSpaced | sip_bridge/rtp.py:77-96 | no wait returns before its deadline, and deadlines are 20 ms apart across baseline resets |
| Rtp.DeadlinesExactly | sip_bridge/rtp.py:73-96 | deadlines follow one another by exactly 20 ms, without drift, except that a call over 100 ms late restarts them; when each wait returns |
| Rtp.DeadlinesApart | sip_bridge/rtp.py:77-96 | the deadlines of waits i and j are at least 20 (j - i) ms apart |
| Rtp.AtMostMaxLag | sip_bridge/rtp.py:88-93 | with sleeps on time, a wait returns at most 100 ms after its deadline |
| Rtp.BurstBound | sip_bridge/rtp.py:82-96 | at most floor(T/20) + 6 waits return within T ms |
| OutboundRuns.EveryThirdAppend | sip_bridge/audio_codec.py:120-127 | decimation commutes with concatenation after a multiple of three samples |
| OutboundRuns.EncodeStreamAppend | sip_bridge/codec_bridge.py:109-114 | so does decimation followed by mu-law, on bytes |
| Outbound.CallSession.PutNowait | sip_bridge/session.py:500-503 | a full queue drops the new frame and counts it |
| Outbound.CallSession.ReceiveAudio | sip_bridge/session.py:493-503 | whole 960-byte frames of buffer and blob are offered in order, the remainder stays |
| Outbound.CallSession.RefillBuffer | sip_bridge/session.py:733-749 | below a frame, the next queued chunk is encoded onto the buffer; an encoding error drops that chunk |
| Outbound.CallSession.SendPacket | sip_bridge/session.py:755-800 | one packet with 160 bytes, wrapping counters and the marker on the first; counters advanced |
| Outbound.CallSession.MediaTurn | sip_bridge/session.py:732-801 | one turn of the loop, with a shutdown after any number of packets |
| OutboundRuns.QueueConservation | sip_bridge/session.py:493-503 | chunks taken and queued are, in order, those offered but for the dropped ones, which are counted; the queue never exceeds its bound |
| OutboundRuns.BlobExactly | sip_bridge/session.py:493-503 | a blob queues as many of its 960-byte frames as there is room for, the first ones, and drops only the others |
| OutboundRuns.EncodedChunk | sip_bridge/session.py:741-749 | what a chunk adds to the buffer: itself without a codec, its code, or nothing for an odd length |
| OutboundRuns.TurnExactly | sip_bridge/session.py:732-801 | a turn takes a chunk only when less than a payload is left, and sends all whole payloads up to a shutdown |
| OutboundRuns.PacketStream | sip_bridge/session.py:721-801 | for arbitrary chunk sizes: payloads sent plus the buffer are the encodings of the chunks taken, and packet k has sequence k mod 2^16, timestamp 160k mod 2^32, marker iff k = 0 |
| OutboundRuns.FramewiseIsWhole | sip_bridge/codec_bridge.py:109-114 | encoding 960-byte frames one by one is encoding their concatenation |
| OutboundRuns.DirectEndToEnd | sip_bridge/session.py:732-801 | for every split of the stream, without drops: one packet per frame, an empty buffer between turns, payloads the mu-law of the decimated stream prefix |
| OutboundRuns.DirectPayloads | sip_bridge/session.py:732-801 | in the same runs payload byte i is the mu-law of the sample in stream bytes 6i and 6i+1, for 160 bytes a packet |
| SipTls.StreamReader.Readline | sip_bridge/sip_tls.py:99-106 | a line with its end, the last line without one, end of stream, or over the reader's limit |
| SipTls.StreamReader.ReadExactly | sip_bridge/sip_tls.py:176-181 | exactly n bytes or nothing |
| SipTls.ParseMessage | sip_bridge/sip_tls.py:91-183 | the outcome for every byte stream, and that the reader stands right after the message |
| SipTls.ReadHeaderLines | sip_bridge/sip_tls.py:112-152 | the header dictionary of the lines read: later values win, places stay |
| SipTls.ReadHeaderLine | sip_bridge/sip_tls.py:113-152 | one line: end of block, fault, or a header within the limits |
| SipTls.NormalizedHeaders | sip_bridge/sip_tls.py:196-202 | names normalized, spellings of one name merged, Content-Length that of the body |
| SipTls.SerializeMessage | sip_bridge/sip_tls.py:191-212 | the joined lines are the terminated lines of the specification, then the body |
| SipTls.HandleConnection | sip_bridge/wa_server_helpers.py:139-164 | dispatches exactly the messages of the stream up to its end or first fault |
| SipRoundTrip.NormalizeNameFixed | sip_bridge/sip_tls.py:42-45 | normalizing is idempotent and adds neither colon nor line feed |
| SipRoundTrip.TitleNormalizes | sip_bridge/sip_tls.py:42-45 | the title-cased wire name normalizes to the same name |
| SipRoundTrip.ReadWireHeaders | sip_bridge/sip_tls.py:112-152 | a printed header block within the limits is read back line by line, its size counted exactly |
| SipRoundTrip.OverLimitHeaders | sip_bridge/sip_tls.py:119-152 | a printed header block beyond the count or size limit faults, wherever it crosses it |
| SipRoundTrip.ParseSerialize | sip_bridge/sip_tls.py:91-212 | what is printed is parsed to the normalized message, consuming exactly its bytes |
| SipRoundTrip.RoundTripExactly | sip_bridge/sip_tls.py:91-212 | for every message: that holds iff its normalized form is well formed and within the limits; beyond them the parser raises |
| SipRoundTrip.PipelinedRoundTrip | sip_bridge/wa_server_helpers.py:151-158 | messages sent back to back are read as exactly those messages, normalized, in order |
| SipRoundTrip.ParsedWellFormed | sip_bridge/sip_tls.py:91-183 | whatever is parsed can be printed again: well formed, names normalized and distinct |
| SipRoundTrip.ParsedAgain | sip_bridge/sip_tls.py:91-212 | a parsed message is printed and parsed with only its Content-Length set |
| SipReading.BlockExactly | sip_bridge/sip_tls.py:112-152 | any header lines, however they end: read to the blank line, or a fault for a missing colon, over 100 headers or over 65536 bytes |
| SipReading.EndExactly | sip_bridge/sip_tls.py:112-122 | a stream that ends among the headers is closed quietly unless a line faulted before |
| SipReading.DictExactly | sip_bridge/sip_tls.py:138-144 | every name once, at the place of its first line, with the value of its last |
| SipReading.ParseExactly | sip_bridge/sip_tls.py:91-183 | the answer to any first line, headers, blank line and tail: the last Content-Length decides the body, none means an empty one; which streams fault and which are closed |
| SipReading.EndsEarly | sip_bridge/sip_tls.py:99-122 | streams without a first line or without a blank line yield no message |
| SipReading.WireLines | sip_bridge/sip_tls.py:204-212 | the printed lines of any stored headers, repeated or not, are such lines |
| SipReading.WrittenExactly | sip_bridge/sip_tls.py:191-202 | what is written for a name: its last value under any spelling, at its first place; the body's length as Content-Length |
| SipReading.StopsExactly | sip_bridge/wa_server_helpers.py:151-160 | after any messages, what cannot be read ends the conversation, with a fault or quietly |
| SipReading.NamesExactly | sip_bridge/sip_tls.py:28-45 | names in lower case without white space around them, and the ten compact forms |
| SipReading.TitleExactly | sip_bridge/sip_tls.py:206-209 | which characters of a wire name are capitals |
| SipReading.WireExample | sip_bridge/sip_tls.py:191-212 | the bytes of a message with a compact name |
| SipTextFacts.ParseIntExactly | sip_bridge/sip_tls.py:154-165 | `int` of any text: white space, a sign, digits with single underscores, at most 4300 of them |
| SipTextFacts.StripPadded | sip_bridge/sip_tls.py:139-144 | stripping removes all white space around a text and nothing else |
| SipTextFacts.StripEolExactly | sip_bridge/sip_tls.py:110-127 | a line loses every carriage return and line feed at its end, and nothing else |
| SipTextFacts.SpacesExactly | sip_bridge/sip_tls.py:139-144 | which ASCII characters are white space |
| SipTextFacts.CasesExactly | sip_bridge/sip_tls.py:42-45 | which characters have another case, and which it is |
| SipReading.HeaderExactly | sip_bridge/sip_tls.py:138-144 | name and value are split at the first colon |
| SipReading.ReadLast | sip_bridge/sip_tls.py:99-106 | the end of a stream without a line feed is a last line, if it is within the limit |
| SipText.DecimalParses | sip_bridge/sip_tls.py:154-161 | a printed length is read back for every number, or refused for having over 4300 digits |
| SipAuth.ParseChallengeLoop | sip_bridge/sip_auth.py:28-67 | the match loop collects what leftmost scanning from match to match collects; realm and nonce required |
| SipAuthProofs.QuotedExactly | sip_bridge/sip_auth.py:28 | a value between quotes is recovered iff it is not empty and has no quote |
| SipAuthProofs.ScanRendered | sip_bridge/sip_auth.py:28-62 | scanning a printed list of quoted and bare fields finds exactly its keys and values |
| SipAuthProofs.ParseRendered | sip_bridge/sip_auth.py:31-67 | a printed header parses to its fields, with or without its name in front |
| SipAuthExact.MatchAtExactly | sip_bridge/sip_auth.py:28 | a match at a position is exactly one of the expression: word, equals sign, quoted value if there is one, else a bare one |
| SipAuthExact.WordsExactly | sip_bridge/sip_auth.py:28 | which ASCII characters make up a key, and which a header name |
| SipAuthExact.FindExactly | sip_bridge/sip_auth.py:51-54 | the next match is the leftmost |
| SipAuthExact.ScanExactly | sip_bridge/sip_auth.py:50-54 | each match is stored under its key in lower case, and scanning goes on at its end |
| SipAuthExact.NameDropped | sip_bridge/sip_auth.py:37-43 | a header name before the value is dropped with its colon and white space |
| SipAuthExact.SchemeExactly | sip_bridge/sip_auth.py:45-48 | only the scheme Digest, in any case, is read |
| SipAuthExact.RequiredExactly | sip_bridge/sip_auth.py:56-62 | a header is read iff it names realm and nonce; the algorithm defaults to MD5 |
| SipAuthDigest.SelectAgain | sip_bridge/sip_auth.py:80-93 | selecting a qop twice is selecting it once |
| SipAuthExact.SelectExactly | sip_bridge/sip_auth.py:80-93 | of the comma-separated parts, stripped: auth if offered, else auth-int if offered, else the first |
| SipAuthExact.BuiltQop | sip_bridge/sip_auth.py:194-253 | a header built for such a challenge parses to exactly that qop, with count 00000001 and its client nonce |
| SipAuthExact.OpaqueEchoed | sip_bridge/sip_auth.py:250-251 | an opaque value is sent back as it came |
| SipAuthExact.FamiliesExactly | sip_bridge/sip_auth.py:70-77 | which algorithm names are supported, by which hash, and which are session variants |
| SipAuthExact.VerifyExactly | sip_bridge/sip_auth.py:145-191 | any header verifies iff it parses, names the user, and carries the digest of the joined parts |
| SipAuthExact.BuiltText | sip_bridge/sip_auth.py:230-253 | the text of an answer |
| SipAuthExact.ChallengeTextExactly | sip_bridge/sip_auth.py:261-279 | the text of a challenge |
| SipAuthDigest.ResponseDefined | sip_bridge/sip_auth.py:96-137 | a response can be computed for a built header iff the algorithm is supported |
| SipAuthDigest.BuiltVerifies | sip_bridge/sip_auth.py:145-253 | a built header verifies for its own credentials iff a session variant comes with a qop, and carries its nonce |
| SipAuthSound.ResponseHashes | sip_bridge/sip_auth.py:96-137 | when a response exists, and that it is the digest of its colon-joined parts |
| SipAuthSound.JoinInjective | sip_bridge/sip_auth.py:113-135 | colon-joined parts are equal only if the lists are, with or without a qop part |
| SipAuthSound.ResponseBinds | sip_bridge/sip_auth.py:96-137 | without a collision among the texts hashed for them, two responses are equal iff user, realm, password, nonce, method, uri and protection are |
| SipAuthSound.VerifiesExactly | sip_bridge/sip_auth.py:145-253 | without a collision between the texts sent and expected, a built header verifies for exactly its user name, password and method |
| SipAuthDigest.IssuedNonceExactly | sip_bridge/wa_main.py:228-235 | the remembered nonce is the issued one iff the realm does not end with `nonce=`; what it is otherwise |
| SipAuthExact.RememberedExactly | sip_bridge/wa_main.py:228-235 | in any text the leftmost quoted nonce is found, if there is one |
| SipAuthExact.NothingRemembered | sip_bridge/wa_main.py:228-235 | without one the empty string is remembered |
| WaServer.WaSIPServer.EvictChallenges | sip_bridge/wa_main.py:221-225 | drops the oldest open challenges until there is room |
| WaServer.WaSIPServer.HandleInvite | sip_bridge/wa_main.py:204-401 | status and all tables for each branch: full, challenge, nonce mismatch, wrong digest, unusable media, accepted |
| WaServer.WaSIPServer.HandleBye | sip_bridge/wa_main.py:428-437 | both entries of the call removed, its running task cancelled |
| WaServer.WaSIPServer.OnDone | sip_bridge/wa_main.py:374-376 | both entries under the task's call id removed, whichever task they name |
| WaServer.WaSIPServer.StopBegin | sip_bridge/wa_main.py:110-117 | every recorded running task cancelled |
| WaServer.WaSIPServer.StopEnd | sip_bridge/wa_main.py:118-120 | both tables emptied |
| WaSpec.Evict | sip_bridge/wa_main.py:221-225 | the newest challenges, one fewer than the bound, or all of them when there was room |
| WaExact.StatusExactly | sip_bridge/wa_main.py:204-401 | the one condition for each of 503, 407, 403, 488 and 200: room, credentials, digest and pending nonce, usable media |
| WaExact.RefusedExactly | sip_bridge/wa_main.py:238-290 | a refused call leaves sessions, tasks and running tasks as they were and closes at most its own challenge |
| WaExact.ChallengedExactly | sip_bridge/wa_main.py:221-236 | a challenge is remembered; others are evicted, oldest first, only from twice the limit on |
| WaExact.AcceptedExactly | sip_bridge/wa_main.py:370-387 | an accepted call is recorded under a new running task, and nothing else changes but its challenge |
| WaExact.ByeExactly | sip_bridge/wa_main.py:428-437 | a BYE forgets its call alone and cancels the task recorded for it |
| WaExact.DoneExactly | sip_bridge/wa_main.py:374-376 | the end of a task: it no longer runs and its call id leaves both tables |
| WaExact.StopExactly | sip_bridge/wa_main.py:110-120 | which tasks a stop cancels, and that it empties both tables |
| WaExact.RecordedFromInvite | sip_bridge/wa_main.py:257-290 | in every run a recorded call comes from an INVITE of its own that verified and had usable media |
| WaRuns.RunKeepsInv | sip_bridge/wa_main.py:204-437 | in every run: sessions within the limit, challenges within twice the limit, sessions and tasks the same table |
| WaRuns.AcceptedCarriesNonce | sip_bridge/wa_main.py:238-274 | an accepted INVITE verified and carried the nonce of its open challenge, which is then closed, although parse errors are swallowed |
| WaRuns.StepRecordsExactly | sip_bridge/wa_main.py:110-120 | for each event, the exact condition under which every live task is still recorded after it |
| WaRuns.RecordedExactly | sip_bridge/wa_main.py:204-437 | throughout a run every live task is recorded, and so within the limit, iff every step meets that condition |
| WaRuns.AcceptExactly | sip_bridge/wa_main.py:370-387 | after accepting a call, every live task stays recorded whichever running task ends first iff no task of that call id is still running |
| WaRuns.AcceptedDuringStop | sip_bridge/wa_main.py:110-120 | a call accepted while a stop waits is live and in neither table once it ends, whatever its call id |
| WaRuns.LiveTasksBounded | sip_bridge/wa_main.py:110-120 | in runs that accept only call ids without a running task and end a stop only with nothing live, all live tasks are recorded and within the limit |
| WaLimits.Connects | sip_bridge/wa_main.py:204-390 | the two INVITEs of the configured client are one accepted call, whatever the state, if there is room |
| WaLimits.ReuseLeavesLive | sip_bridge/wa_main.py:374-437 | a run of call, BYE, same call id again, end of the first task: the second task is live and in neither table |
| WaLimits.ReusesLeaveLive | sip_bridge/wa_main.py:208-216 | from the idle server, n such reuses leave n live tasks and empty tables, whatever the limit |
| WaLimits.StopLosesTask | sip_bridge/wa_main.py:110-120 | from the idle server, a call accepted while a stop waits ends up live and in neither table, with a fresh call id |
| WaHandshake.ChallengeParses | sip_bridge/sip_auth.py:261-279 | a challenge parses back to its realm, nonce, algorithm and qop |
| WaHandshake.AnswerVerifies | sip_bridge/sip_auth.py:145-253 | the answer a client derives from a challenge verifies and carries its nonce |
| WaHandshake.Challenged | sip_bridge/wa_main.py:219-236 | an INVITE without credentials leaves its challenge's nonce pending whatever had to be evicted |
| WaHandshake.PendingKept | sip_bridge/wa_main.py:221-274 | over any events without an INVITE of the call, its pending nonce stays as it is or is evicted |
| WaHandshake.HandshakeExactly | sip_bridge/wa_main.py:204-390 | in any run, INVITE, 407, authenticated INVITE ends in 200 with the session recorded iff the realm does not end with `nonce=` or the challenge was evicted |
| WaHandshake.OnlyRightCredentialsConnect | sip_bridge/wa_main.py:257-274 | in any run, the handshake ends in 200 for exactly the configured credentials and in 403 for any others, but for a collision of the texts hashed |
| WaHandshake.NothingPendingAccepts | sip_bridge/wa_main.py:238-255 | with no challenge pending for the call, the right answer to any nonce is accepted |
| BookingDesk.Desk.CreateBooking | app/tools/booking_tools.py:193-214 | the transaction: booking stored and slot taken, or nothing changed |
| BookingDesk.Desk.ReadForCancel | app/tools/booking_tools.py:253-274 | the read and the ownership checks, remembering the booking as read |
| BookingDesk.Desk.ContinueCancel | app/tools/booking_tools.py:276-283 | the marking and the reopening as separate steps, each failing when its document is missing |
| BookingRuns.AtMostOneHolder | app/tools/booking_tools.py:193-283 | over all interleavings with fresh ids, each cancelled once: no slot has two holders, an available slot has none |
| BookingRuns.UnavailableIffHeld | app/tools/booking_tools.py:193-283 | and a slot is unavailable exactly while it has a holder, also when a cancel is cut short |
| BookingRuns.OnlyOwnerCancels | app/tools/booking_tools.py:260-274 | a booking is cancelled only after its own user asked for it, and not from another company |
| BookingRuns.ReopenExactly | app/tools/booking_tools.py:279-283 | a reopening keeps a slot safe iff no other booking holds it |
| BookingRuns.SafeExactly | app/tools/booking_tools.py:193-283 | over all interleavings with fresh ids, however often an id is cancelled: slots stay safe throughout iff no cancel reopens a slot another booking holds |
| BookingRuns.SecondCancelBreaksSafety | app/tools/booking_tools.py:276-283 | for any slot, users and ids: cancelling a booking twice around another booking leaves the slot available and held |
| BookingRuns.CreateExactly | app/tools/booking_tools.py:193-214 | when a booking is made, its contents, and that only its slot changes |
| BookingRuns.AskExactly | app/tools/booking_tools.py:257-274 | a cancel is let through exactly for the own user and no other company |
| BookingRuns.CancelCompletes | app/tools/booking_tools.py:253-283 | an uninterrupted cancel ends with the booking cancelled and the slot available |
| BookingRuns.StepFails | app/tools/booking_tools.py:276-283 | a step whose document is missing ends the cancel and changes nothing |
| Valuation.AnswerExactly | app/tools/valuation_tools.py:155-216 | when an ask is accepted, at which amount, rejected or countered; the counter is the midpoint rounded down or the maximum |
| Valuation.CounterMoves | app/tools/valuation_tools.py:210-216 | a counter never lowers the offer or passes the maximum; when it does not move |
| Valuation.GapShrinks | app/tools/valuation_tools.py:210-216 | from an offer of 20 below the maximum, every counter narrows the gap |
| Valuation.HaggleExactly | app/tools/valuation_tools.py:155-216 | where repeated countering ends, for every start with 0 <= offer <= max |
| Valuation.HaggleConverges | app/tools/valuation_tools.py:155-216 | from 20 on: a deal iff the ask is within 5% of the maximum and never for more, no deal iff above the ceiling, else the maximum |
| Valuation.SmallOffersStall | app/tools/valuation_tools.py:191-216 | a gap of one stalls iff the offer is below 20 |
| Valuation.AnyForcing | app/tools/valuation_tools.py:273-285 | some forcing flag is set |
| Valuation.DowngradeForDefects | app/tools/valuation_tools.py:300-309 | saturating downgrades in a loop are one saturating downgrade by the number of defects |
| Valuation.AdjustGrade | app/tools/valuation_tools.py:260-316 | the final grade and the number of adjustments reported |
| Valuation.GradeExactly | app/tools/valuation_tools.py:260-316 | Poor when forced, else the start, steps for a battery below 60 or 80 percent and one for each defect |
| Valuation.OrderIndependent | app/tools/valuation_tools.py:300-309 | the order of the flags does not matter |
| Valuation.GradeMonotone | app/tools/valuation_tools.py:260-316 | more defects or a lower battery reading never raise the grade |
| Valuation.RoundNearest | app/tools/valuation_tools.py:134 | the rounded share is within half a unit |
| Valuation.RoundMonotone | app/tools/valuation_tools.py:134 | rounding halves to even preserves order |
| Valuation.OfferExactly | app/tools/valuation_tools.py:95-152 | the price of the grade, or 68, 58, 45 or 29 percent of the retail price to the nearest unit, or an error |
| Valuation.OfferFallsWithGrade | app/tools/valuation_tools.py:95-152 | a worse grade never raises the offer, from a row that does not increase or from the percentages |
| Valuation.OfferMonotone | app/tools/valuation_tools.py:95-316 | so a worse questionnaire never raises the offer |
| EventLog.MemorySaver.ScheduleMemorySave | app/agents/ekaette_router/agent.py:55-85 | nothing while a save is in flight or all is saved, else a batch of at most 25 from the cursor |
| EventLog.MemorySaver.SaveEnds | app/agents/ekaette_router/agent.py:77-82 | cursor moved on success only, flag cleared in any case |
| EventLog.SavedExactlyOnce | app/agents/ekaette_router/agent.py:55-86 | over every interleaving: one save in flight at most, and the saved batches concatenate to the log up to the cursor |
| EventLog.RoundsCatchUp | app/agents/ekaette_router/agent.py:72-80 | k saves without failure bring the cursor to min(log length, cursor + 25k) |
| EventLog.TokenMeter.Delta | app/agents/dedup.py:186-207 | the loop sums the events from the cursor on |
| EventLog.TokenMeter.TelemetryAfterAgent | app/agents/dedup.py:174-231 | cursor to the end, totals increased unless the delta is zero |
| EventLog.TotalsConsistent | app/agents/dedup.py:194-203 | a total of zero means no tokens of any kind |
| EventLog.TotalsAreOneFold | app/agents/dedup.py:178-231 | over every interleaving the running totals are those of one pass over the log up to the cursor |
| EventLog.CallbackCountsAll | app/agents/dedup.py:178-231 | after a callback every event has been counted |
| EventLog.ExtractExactly | app/agents/dedup.py:72-77 | the first positive value, truncated |
| EventLog.SumExactly | app/agents/dedup.py:189-207 | what one event adds to each total |
| Recorder.VadDetector.OnLevel | frontend/public/pcm-recorder-processor.js:121-166 | the counters and the signal after one block |
| Recorder.SignalsExactly | frontend/public/pcm-recorder-processor.js:121-166 | which block signals what, stated on the level history alone |
| Recorder.SignalsAlternate | frontend/public/pcm-recorder-processor.js:121-166 | starts and ends alternate; an end at least 48 blocks after its start, a start at least 19 after an end |
| Recorder.EndsExactly | frontend/public/pcm-recorder-processor.js:143-165 | an end iff the last 48 blocks, all since the start, were silent |
| Recorder.StartsExactly | frontend/public/pcm-recorder-processor.js:121-141 | a start iff the last 8 blocks, all after the cooldown, were loud |
| Recorder.EncodeMonotone | frontend/public/pcm-recorder-processor.js:98-102 | encoding preserves order and maps -1, 0, 1 to the ends and middle of the 16-bit range |
| Recorder.EncodeExactly | frontend/public/pcm-recorder-processor.js:98-102 | scaled by 32767 or 32768, cut off beyond full scale, rounded towards zero |
| Recorder.EncodeAccurate | frontend/public/pcm-recorder-processor.js:98-102 | an encoded sample is never louder than the processed one and off by less than two steps |
| Recorder.Chunker.Write | frontend/public/pcm-recorder-processor.js:104-113 | a full buffer is posted and replaced, never written again |
| Recorder.Chunker.Process | frontend/public/pcm-recorder-processor.js:98-113 | a block of any length, spread over as many chunks as it takes |
| Recorder.ChunksAreStream | frontend/public/pcm-recorder-processor.js:104-113 | full chunks followed by the partial buffer are the encoded sample stream |

## Left out

- Floating point: samples, gains and times are exact reals, percentages exact rationals, so roundings such as
  that of `max_amount * 1.15` or of `Float32Array` are not modelled.
- Playback statistics, the checks on message payloads, and the second output channel, which receives the
  same samples as the first.
- Network, sockets and logging: packets are recorded where the code hands them to the transport; errors of
  the transport, which the code ignores, do not appear. An SSRC is any 32-bit number.
- Clocks and random numbers are parameters: the time at each call, how long a sleep overshoots, the nonces and
  confirmation ids that are drawn.
- Inbound audio, A-law, 8 kHz to 16 kHz, Opus, SRTP, and the resamplers with inexact steps.
- Text is ASCII, one character a byte: the theorems range over every string, and describe the code for ASCII
  ones; no UTF-8 replacement characters, no Unicode case or digits.
- SipTls.StreamReader.Readline: what asyncio's reader keeps buffered after an over-long line is not modelled, because the
  connection ends there.
- The request and status accessors of `SipMessage`, transaction responses, ACK and 405 answers, the address
  allow list, and how a call id is chosen from the headers (the call id is a parameter).
- SDP parsing, codec and SRTP set-up: two booleans of an INVITE say whether they succeed.
- The hash is a parameter. Theorems that need it say so: digests without quotes and without colons, as hexadecimal
  text has none, and no collision between the texts that the digests in question hash.
- Stop is two transitions with everything else free to happen between them; closing the listening sockets
  is not modelled.
- Firestore: documents are maps, one slot and one booking collection; failures other than a cancel cut short
  between its steps are not modelled.
- Parsing of questionnaire texts, adjustment labels, the grading of images, and the tool wrappers around the
  valuation functions.
- The token price in dollars, and cursors in the session state that are negative, beyond the log or not numbers.
- The recorder's high-pass filter, noise gate and level smoothing: processed samples and levels are inputs.
