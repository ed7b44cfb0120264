/**
 The recorder worklet (frontend/public/pcm-recorder-processor.js): the voice-activity detector, one
 smoothed level a block, and the batching of encoded samples into chunks.
 */
module Recorder {
  import opened Bytes
  import opened Seqs

  // ---- Voice activity -----------------------------------------------------------------------------------

  const START_LEVEL := 0.014
  const END_LEVEL := 0.0085
  const FRAMES_FOR_START := 8
  const FRAMES_FOR_END := 48
  const MIN_SPEAKING := 16
  const COOLDOWN := 12

  datatype Signal = Quiet | SpeechStart | SpeechEnd
  datatype Vad = Vad(speaking: bool, speech: nat, speakingFrames: nat, silence: nat, cooldown: nat)
  datatype Heard = Heard(vad: Vad, signal: Signal)

  const SILENT := Vad(false, 0, 0, 0, 0)

  function Observe(v: Vad, level: real): Heard {
    var cooldown := if v.cooldown > 0 then v.cooldown - 1 else 0;
    var u := v.(cooldown := cooldown);
    if !u.speaking then
      if level >= START_LEVEL && cooldown == 0 then
        if u.speech + 1 >= FRAMES_FOR_START
        then Heard(u.(speech := u.speech + 1, speaking := true, speakingFrames := 0, silence := 0), SpeechStart)
        else Heard(u.(speech := u.speech + 1), Quiet)
      else Heard(u.(speech := 0), Quiet)
    else
      var frames := u.speakingFrames + 1;
      var silence := if level <= END_LEVEL then u.silence + 1 else 0;
      if frames >= MIN_SPEAKING && silence >= FRAMES_FOR_END
      then Heard(Vad(false, 0, 0, 0, COOLDOWN), SpeechEnd)
      else Heard(u.(speakingFrames := frames, silence := silence), Quiet)
  }

  class VadDetector {
    var isSpeaking: bool
    var speechFrames: nat
    var speakingFrames: nat
    var silenceFrames: nat
    var cooldownFrames: nat

    ghost function View(): Vad
      reads this
    {
      Vad(isSpeaking, speechFrames, speakingFrames, silenceFrames, cooldownFrames)
    }

    constructor ()
      ensures View() == SILENT
    {
      isSpeaking, speechFrames, speakingFrames, silenceFrames, cooldownFrames := false, 0, 0, 0, 0;
    }

    method OnLevel(level: real) returns (signal: Signal)
      modifies this
      ensures Heard(View(), signal) == Observe(old(View()), level)
    {
      signal := Quiet;
      if cooldownFrames > 0 {
        cooldownFrames := cooldownFrames - 1;
      }
      if !isSpeaking {
        if level >= START_LEVEL && cooldownFrames == 0 {
          speechFrames := speechFrames + 1;
          if speechFrames >= FRAMES_FOR_START {
            isSpeaking := true;
            speakingFrames := 0;
            silenceFrames := 0;
            signal := SpeechStart;
          }
        } else {
          speechFrames := 0;
        }
      } else {
        speakingFrames := speakingFrames + 1;
        if level <= END_LEVEL {
          silenceFrames := silenceFrames + 1;
        } else {
          silenceFrames := 0;
        }
        if speakingFrames >= MIN_SPEAKING && silenceFrames >= FRAMES_FOR_END {
          isSpeaking := false;
          speechFrames := 0;
          speakingFrames := 0;
          silenceFrames := 0;
          cooldownFrames := COOLDOWN;
          signal := SpeechEnd;
        }
      }
    }
  }

  /** The detector and the signal of every block after a sequence of levels. */
  datatype Trail = Trail(vad: Vad, signals: seq<Signal>)

  function Listen(levels: seq<real>): (t: Trail)
    ensures |t.signals| == |levels|
  {
    if levels == [] then Trail(SILENT, [])
    else
      var before := Listen(levels[..|levels| - 1]);
      var h := Observe(before.vad, levels[|levels| - 1]);
      Trail(h.vad, before.signals + [h.signal])
  }

  /** The block of the last signal before block `n`, or -1. */
  function LastSignal(signals: seq<Signal>, n: nat): (j: int)
    requires n <= |signals|
    ensures -1 <= j < n
    ensures j >= 0 ==> signals[j] != Quiet
    ensures forall k :: j < k < n ==> signals[k] == Quiet
  {
    if n == 0 then -1 else if signals[n - 1] != Quiet then n - 1 else LastSignal(signals, n - 1)
  }

  /** How many blocks up to `n`, none before `low`, were at or above the start level without a break. */
  function LoudRun(levels: seq<real>, low: int, n: nat): (r: nat)
    requires n <= |levels|
    ensures r <= n && (low <= n ==> r <= n - low)
  {
    if n > 0 && low < n && levels[n - 1] >= START_LEVEL then 1 + LoudRun(levels, low, n - 1) else 0
  }

  /** The same for blocks at or below the end level. */
  function SilentRun(levels: seq<real>, low: int, n: nat): (r: nat)
    requires n <= |levels|
    ensures r <= n && (low <= n ==> r <= n - low)
  {
    if n > 0 && low < n && levels[n - 1] <= END_LEVEL then 1 + SilentRun(levels, low, n - 1) else 0
  }

  /** The first block that may count towards a start, after the last signal `j`. */
  function Armed(j: int): int {
    if j < 0 then 0 else j + COOLDOWN
  }

  /** The detector's counters, read off the history. */
  predicate VadInv(levels: seq<real>, t: Trail)
    requires |t.signals| == |levels|
  {
    var n := |levels|;
    var j := LastSignal(t.signals, n);
    && (t.vad.speaking <==> j >= 0 && t.signals[j] == SpeechStart)
    && (t.vad.speaking ==>
          t.vad.speakingFrames == n - 1 - j && t.vad.silence == SilentRun(levels, j + 1, n) && t.vad.cooldown == 0)
    && (!t.vad.speaking ==>
          && t.vad.cooldown == (if j >= 0 && n - 1 - j < COOLDOWN then COOLDOWN - (n - 1 - j) else 0)
          && t.vad.speech == LoudRun(levels, Armed(j), n)
          && t.vad.speech < FRAMES_FOR_START)
  }

  /** When block `n`, after last signal `j`, raises a signal. */
  predicate StartsAt(levels: seq<real>, signals: seq<Signal>, n: nat)
    requires n < |levels| && n <= |signals|
  {
    var j := LastSignal(signals, n);
    (j < 0 || signals[j] == SpeechEnd) && LoudRun(levels, Armed(j), n + 1) >= FRAMES_FOR_START
  }

  predicate EndsAt(levels: seq<real>, signals: seq<Signal>, n: nat)
    requires n < |levels| && n <= |signals|
  {
    var j := LastSignal(signals, n);
    j >= 0 && signals[j] == SpeechStart && SilentRun(levels, j + 1, n + 1) >= FRAMES_FOR_END
  }

  lemma {:induction false} RunsOfPrefix(levels: seq<real>, more: seq<real>, low: int, n: nat)
    requires n <= |levels|
    ensures LoudRun(levels + more, low, n) == LoudRun(levels, low, n)
    ensures SilentRun(levels + more, low, n) == SilentRun(levels, low, n)
  {
    if n > 0 {
      RunsOfPrefix(levels, more, low, n - 1);
    }
  }

  lemma {:induction false} LastOfPrefix(signals: seq<Signal>, more: seq<Signal>, n: nat)
    requires n <= |signals|
    ensures LastSignal(signals + more, n) == LastSignal(signals, n)
  {
    if n > 0 {
      LastOfPrefix(signals, more, n - 1);
    }
  }

  /** How the runs grow with one more block. */
  lemma RunsGrow(levels: seq<real>, level: real, low: int)
    ensures var all, n := levels + [level], |levels|;
            && LoudRun(all, low, n + 1) == (if low < n + 1 && level >= START_LEVEL then 1 + LoudRun(levels, low, n) else 0)
            && SilentRun(all, low, n + 1) == (if low < n + 1 && level <= END_LEVEL then 1 + SilentRun(levels, low, n) else 0)
  {
    RunsOfPrefix(levels, [level], low, |levels|);
  }

  lemma LastGrows(signals: seq<Signal>, signal: Signal)
    ensures LastSignal(signals + [signal], |signals| + 1) ==
            if signal != Quiet then |signals| else LastSignal(signals, |signals|)
    ensures LastSignal(signals + [signal], |signals|) == LastSignal(signals, |signals|)
  {
    LastOfPrefix(signals, [signal], |signals|);
  }

  /** One more block: the counters stay right, and its signal is the one the history calls for. */
  lemma ObserveKeepsInv(levels: seq<real>, t: Trail, level: real)
    requires |t.signals| == |levels| && VadInv(levels, t)
    ensures var h := Observe(t.vad, level);
            var all, n := levels + [level], |levels|;
            && VadInv(all, Trail(h.vad, t.signals + [h.signal]))
            && (h.signal == SpeechStart <==> StartsAt(all, t.signals, n))
            && (h.signal == SpeechEnd <==> EndsAt(all, t.signals, n))
  {
    hide LoudRun, SilentRun, LastSignal;
    var h := Observe(t.vad, level);
    var n, j := |levels|, LastSignal(t.signals, |levels|);
    RunsGrow(levels, level, Armed(j));
    RunsGrow(levels, level, j + 1);
    LastGrows(t.signals, h.signal);
    if h.signal != Quiet {
      EmptyRuns(levels + [level], n + 1);
    }
  }

  lemma EmptyRuns(levels: seq<real>, n: nat)
    requires n <= |levels|
    ensures forall low :: low >= n ==> LoudRun(levels, low, n) == 0 && SilentRun(levels, low, n) == 0
  {
  }

  /** In every run, a block signals exactly what the levels since the last signal call for. */
  lemma {:induction false} SignalsExactly(levels: seq<real>)
    ensures VadInv(levels, Listen(levels))
    ensures var s := Listen(levels).signals;
            forall n :: 0 <= n < |levels| ==>
              (s[n] == SpeechStart <==> StartsAt(levels, s, n)) && (s[n] == SpeechEnd <==> EndsAt(levels, s, n))
  {
    hide StartsAt, EndsAt, VadInv, Observe;
    if levels == [] {
      NothingHeard();
      assert Listen(levels) == Trail(SILENT, []);
    } else {
      var m := |levels| - 1;
      var front, level := levels[..m], levels[m];
      SignalsExactly(front);
      var t := Listen(front);
      var signal := Observe(t.vad, level).signal;
      assert levels == front + [level];
      assert Listen(levels).signals == t.signals + [signal];
      ObserveKeepsInv(front, t, level);
      forall n | 0 <= n < |levels|
        ensures ((t.signals + [signal])[n] == SpeechStart <==> StartsAt(levels, t.signals + [signal], n))
        ensures ((t.signals + [signal])[n] == SpeechEnd <==> EndsAt(levels, t.signals + [signal], n))
      {
        SignalsOfPrefix(front, level, t.signals, signal, n);
      }
    }
  }

  lemma NothingHeard()
    ensures VadInv([], Trail(SILENT, []))
  {
  }

  lemma SignalsOfPrefix(front: seq<real>, level: real, signals: seq<Signal>, signal: Signal, n: nat)
    requires |signals| == |front| && n <= |front|
    ensures n < |front| ==> (StartsAt(front + [level], signals + [signal], n) <==> StartsAt(front, signals, n))
    ensures n < |front| ==> (EndsAt(front + [level], signals + [signal], n) <==> EndsAt(front, signals, n))
    ensures StartsAt(front + [level], signals + [signal], n) <==> StartsAt(front + [level], signals, n)
    ensures EndsAt(front + [level], signals + [signal], n) <==> EndsAt(front + [level], signals, n)
  {
    LastOfPrefix(signals, [signal], n);
    if n < |front| {
      var j := LastSignal(signals, n);
      RunsOfPrefix(front, [level], Armed(j), n + 1);
      RunsOfPrefix(front, [level], j + 1, n + 1);
    }
  }

  /**
   For every sequence of levels: the signals alternate, a start first; an end comes at least 48 blocks
   after its start, so the 16-block minimum never decides; a start comes at least 19 blocks after the
   end before it, and the first not before the eighth block.
   */
  lemma SignalsAlternate(levels: seq<real>, n: nat)
    requires n < |levels|
    ensures var s := Listen(levels).signals;
            var j := LastSignal(s, n);
            && (s[n] == SpeechStart ==> if j < 0 then n >= 7 else s[j] == SpeechEnd && n - j >= 19)
            && (s[n] == SpeechEnd ==> j >= 0 && s[j] == SpeechStart && n - j >= 48)
  {
    SignalsExactly(levels);
  }

  lemma {:induction false} SilentRunWindow(levels: seq<real>, low: int, n: nat, k: nat)
    requires n <= |levels|
    ensures SilentRun(levels, low, n) >= k <==> k == 0 || (n - k >= low && n >= k && forall i :: n - k <= i < n ==> levels[i] <= END_LEVEL)
    decreases k
  {
    if k > 0 && n > 0 {
      SilentRunWindow(levels, low, n - 1, k - 1);
    }
  }

  lemma {:induction false} LoudRunWindow(levels: seq<real>, low: int, n: nat, k: nat)
    requires n <= |levels|
    ensures LoudRun(levels, low, n) >= k <==> k == 0 || (n - k >= low && n >= k && forall i :: n - k <= i < n ==> levels[i] >= START_LEVEL)
    decreases k
  {
    if k > 0 && n > 0 {
      LoudRunWindow(levels, low, n - 1, k - 1);
    }
  }

  /** While speaking, the end comes exactly when the last 48 blocks, all since the start, were silent. */
  lemma EndsExactly(levels: seq<real>, n: nat)
    requires n < |levels|
    ensures var s := Listen(levels).signals;
            var j := LastSignal(s, n);
            s[n] == SpeechEnd <==>
              j >= 0 && s[j] == SpeechStart && n - 47 > j && forall i :: n - 47 <= i <= n ==> levels[i] <= 0.0085
  {
    hide Listen, VadInv, SilentRun, LoudRun, LastSignal, Observe;
    SignalsExactly(levels);
    SilentRunWindow(levels, LastSignal(Listen(levels).signals, n) + 1, n + 1, FRAMES_FOR_END);
  }

  /** While not speaking, a start comes exactly when the last 8 blocks, all armed, were loud. */
  lemma StartsExactly(levels: seq<real>, n: nat)
    requires n < |levels|
    ensures var s := Listen(levels).signals;
            var j := LastSignal(s, n);
            s[n] == SpeechStart <==>
              && (j < 0 || s[j] == SpeechEnd) && n - 7 >= (if j < 0 then 0 else j + 12)
              && forall i :: n - 7 <= i <= n && 0 <= i ==> levels[i] >= 0.014
  {
    hide Listen, VadInv, SilentRun, LoudRun, LastSignal, Observe;
    SignalsExactly(levels);
    LoudRunWindow(levels, Armed(LastSignal(Listen(levels).signals, n)), n + 1, FRAMES_FOR_START);
  }

  // ---- Chunks ---------------------------------------------------------------------------------------------

  function Truncate(x: real): int {
    if x >= 0.0 then x.Floor else -((-x).Floor)
  }

  /** Scale, clamp and truncate one processed sample. */
  function EncodeSample(x: real): sample {
    var scaled := if x < 0.0 then x * 32768.0 else x * 32767.0;
    var clamped := if scaled > 32767.0 then 32767.0 else if scaled < -32768.0 then -32768.0 else scaled;
    Truncate(clamped)
  }

  lemma EncodeMonotone(x: real, y: real)
    requires x <= y
    ensures EncodeSample(x) <= EncodeSample(y)
    ensures EncodeSample(-1.0) == -32768 && EncodeSample(0.0) == 0 && EncodeSample(1.0) == 32767
  {
  }

  /**
   A processed sample is scaled by 32767, or by 32768 below zero, and rounded towards zero; beyond full
   scale it is cut off.
   */
  lemma EncodeExactly(x: real)
    ensures var e: int := EncodeSample(x);
            if x > 1.0 then e == 32767
            else if x < -1.0 then e == -32768
            else if x >= 0.0 then e as real <= 32767.0 * x < (e + 1) as real
            else (e - 1) as real < 32768.0 * x <= e as real
  {
    if -1.0 <= x < 0.0 {
      var y := -(x * 32768.0);
      assert y.Floor as real <= y < (y.Floor + 1) as real;
    }
  }

  /** Read back at 1/32768 a step, an encoded sample is never louder than it was, and off by less than two steps. */
  lemma EncodeAccurate(x: real)
    requires -1.0 <= x <= 1.0
    ensures var e := EncodeSample(x) as real;
            if x >= 0.0 then 32768.0 * x - 2.0 < e <= 32768.0 * x else 32768.0 * x <= e < 32768.0 * x + 2.0
  {
    if x < 0.0 {
      assert (-(x * 32768.0)).Floor as real <= -(x * 32768.0);
    }
  }

  function EncodeAll(xs: seq<real>): (r: seq<sample>)
    ensures |r| == |xs|
  {
    seq(|xs|, i requires 0 <= i < |xs| => EncodeSample(xs[i]))
  }

  /** The chunks posted so far and the samples waiting for the next. */
  datatype Uplink = Uplink(posted: seq<seq<sample>>, partial: seq<sample>)

  function PushSample(size: nat, u: Uplink, s: sample): Uplink {
    var partial := u.partial + [s];
    if |partial| == size then Uplink(u.posted + [partial], []) else u.(partial := partial)
  }

  function PushAll(size: nat, u: Uplink, ss: seq<sample>): Uplink {
    if ss == [] then u else PushSample(size, PushAll(size, u, ss[..|ss| - 1]), ss[|ss| - 1])
  }

  class Chunker {
    const chunkSize: nat
    var pcm: array<sample>
    var writeIndex: nat
    var posted: seq<seq<sample>>

    ghost predicate Ok()
      reads this
    {
      writeIndex < chunkSize == pcm.Length
    }

    ghost function View(): Uplink
      reads this, pcm
      requires Ok()
    {
      Uplink(posted, pcm[..writeIndex])
    }

    constructor (size: nat)
      requires size > 0
      ensures Ok() && chunkSize == size && View() == Uplink([], []) && fresh(pcm)
    {
      chunkSize := size;
      pcm := new sample[size](_ => 0);
      writeIndex := 0;
      posted := [];
    }

    /** The encoding loop over one block of processed samples. */
    method Process(xs: seq<real>)
      requires Ok()
      modifies this, pcm
      ensures Ok() && (pcm == old(pcm) || fresh(pcm))
      ensures View() == PushAll(chunkSize, old(View()), EncodeAll(xs))
    {
      ghost var ss := EncodeAll(xs);
      for i := 0 to |xs|
        invariant Ok() && (pcm == old(pcm) || fresh(pcm))
        invariant View() == PushAll(chunkSize, old(View()), ss[..i])
      {
        Write(EncodeSample(xs[i]));
        assert ss[..i + 1][..i] == ss[..i];
      }
      assert ss[..|xs|] == ss;
    }

    method Write(s: sample)
      requires Ok()
      modifies this, pcm
      ensures Ok() && (pcm == old(pcm) || fresh(pcm))
      ensures View() == PushSample(chunkSize, old(View()), s)
    {
      pcm[writeIndex] := s;
      writeIndex := writeIndex + 1;
      assert pcm[..writeIndex] == old(pcm[..writeIndex]) + [s];
      if writeIndex == chunkSize {
        assert pcm[..] == pcm[..writeIndex];
        posted := posted + [pcm[..]];
        pcm := new sample[chunkSize](_ => 0);
        writeIndex := 0;
      }
    }
  }

  function Stream(u: Uplink): seq<sample> {
    Concat(u.posted) + u.partial
  }

  predicate ChunkInv(size: nat, u: Uplink) {
    |u.partial| < size && forall i :: 0 <= i < |u.posted| ==> |u.posted[i]| == size
  }

  lemma PushSampleStream(size: nat, u: Uplink, s: sample)
    requires ChunkInv(size, u)
    ensures ChunkInv(size, PushSample(size, u, s)) && Stream(PushSample(size, u, s)) == Stream(u) + [s]
  {
    var partial := u.partial + [s];
    ConcatOne(u.posted, partial);
    assert Concat(u.posted) + partial == Stream(u) + [s];
  }

  /** Full chunks in order, then the partial buffer, are the encoded sample stream. */
  lemma {:induction false} ChunksAreStream(size: nat, u: Uplink, ss: seq<sample>)
    requires ChunkInv(size, u)
    ensures ChunkInv(size, PushAll(size, u, ss)) && Stream(PushAll(size, u, ss)) == Stream(u) + ss
  {
    if ss == [] {
      assert Stream(u) + ss == Stream(u);
    } else {
      var front, s := ss[..|ss| - 1], ss[|ss| - 1];
      ChunksAreStream(size, u, front);
      PushSampleStream(size, PushAll(size, u, front), s);
      assert Stream(u) + ss == (Stream(u) + front) + [s];
    }
  }
}
