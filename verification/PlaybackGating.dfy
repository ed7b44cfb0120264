/** Pre-buffering and underruns over whole runs without an interrupt. */
module PlaybackGating {
  import opened Arith
  import opened Seqs
  import opened PlaybackSpec
  import opened PlaybackRuns
  import opened PlaybackFade

  /** What one event plays: as many leading output samples as left the queue. */
  function HeardIn(c: Config, s: State, e: Event): seq<real>
    requires Valid(c, s)
  {
    match e
    case Block(frames) =>
      var r := Process(c, s, frames);
      var k := Available(c, s) - Available(c, r.state);
      if 0 <= k <= |r.out| then r.out[..k] else []
    case _ => []
  }

  function Heard(c: Config, s: State, evs: seq<Event>): seq<real>
    requires Valid(c, s)
  {
    if evs == [] then []
    else Heard(c, s, Front(evs)) + HeardIn(c, Run(c, s, Front(evs)).state, Last(evs))
  }

  lemma HeardIsQueuePrefix(c: Config, s: State, e: Event)
    requires Valid(c, s) && s.fade == 0 && !e.Interrupt?
    ensures var after, h := Queue(c, Step(c, s, e).state), HeardIn(c, s, e);
            var arrived := if e.Chunk? then ToFloats(e.samples) else [];
            && |Queue(c, s)| + |arrived| == |h| + Overwritten(c, s, e) + |after|
            && (Overwritten(c, s, e) == 0 ==> Queue(c, s) + arrived == h + after)
  {
    hide Queue, Enqueue, GateAfter;
    match e
    case Chunk(xs) => EnqueueQueue(c, s, xs);
    case Block(frames) => BlockTakesPrefix(c, s, frames);
  }

  lemma BlockTakesPrefix(c: Config, s: State, frames: nat)
    requires Valid(c, s) && s.fade == 0
    ensures var h, after := HeardIn(c, s, Block(frames)), Queue(c, Process(c, s, frames).state);
            h + after == Queue(c, s) && Queue(c, s) + [] == Queue(c, s)
  {
    hide Queue, GateAfter;
    var q, n := Queue(c, s), Available(c, s);
    if s.gate.buffering && n < Target(c, s.gate) {
      assert [] + q == q;
    } else {
      var k := Min(frames, n);
      AdvanceQueue(c, s, k);
      SameQueue(c, Advance(c, s, k), GateAfter(c, s.gate, frames, n));
      assert Available(c, PlayBlock(c, s, frames).state) == n - k;
      assert (q[..k] + Zeros(frames - k))[..k] == q[..k];
    }
  }

  lemma SameQueue(c: Config, s: State, g: Gate)
    requires Valid(c, s)
    ensures Queue(c, s.(gate := g)) == Queue(c, s) && Available(c, s.(gate := g)) == Available(c, s)
  {
  }

  /**
   Every sample is heard, still queued, or was overwritten; with nothing overwritten the samples
   come out in the order they arrived.
   */
  lemma {:induction false} Conservation(c: Config, s: State, evs: seq<Event>)
    requires Valid(c, s) && s.fade == 0 && NoInterrupt(evs)
    ensures var t, h, q := Trace(c, s, evs), Heard(c, s, evs), Queue(c, s);
            && |q| + |t.arrived| == |h| + t.drops + |Queue(c, t.state)|
            && (t.drops == 0 ==> q + t.arrived == h + Queue(c, t.state))
  {
    var q := Queue(c, s);
    if evs == [] {
      assert q + [] == [] + q;
    } else {
      Conservation(c, s, Front(evs));
      RingRefinesFifo(c, s, Front(evs));
      var t, h := Trace(c, s, Front(evs)), Heard(c, s, Front(evs));
      var e := Last(evs);
      HeardIsQueuePrefix(c, t.state, e);
      var arrived := if e.Chunk? then ToFloats(e.samples) else [];
      Rearrange(q, t.arrived, h, Queue(c, t.state), arrived, HeardIn(c, t.state, e), Queue(c, Step(c, t.state, e).state));
    }
  }

  lemma Rearrange(q: seq<real>, a: seq<real>, h: seq<real>, m: seq<real>, x: seq<real>, k: seq<real>, r: seq<real>)
    ensures q + a == h + m && m + x == k + r ==> q + (a + x) == (h + k) + r
  {
    if q + a == h + m && m + x == k + r {
      assert q + (a + x) == (q + a) + x == (h + m) + x == h + (m + x) == h + (k + r) == (h + k) + r;
    }
  }

  /** The block is filled from the queue, without padding, and playback goes on. */
  predicate GapFree(c: Config, s: State, frames: nat)
    requires Valid(c, s)
  {
    var r := Process(c, s, frames);
    && frames <= Available(c, s)
    && r.out == Queue(c, s)[..frames]
    && !r.state.gate.buffering
  }

  predicate BlocksOf(frames: nat, evs: seq<Event>) {
    forall i :: 0 <= i < |evs| && evs[i].Block? ==> evs[i].frames == frames
  }

  function BlockCount(evs: seq<Event>): nat {
    if evs == [] then 0 else BlockCount(Front(evs)) + if Last(evs).Block? then 1 else 0
  }

  /** The samples the blocks of a run ask for. */
  function Demand(frames: nat, evs: seq<Event>): nat {
    if evs == [] then 0 else Demand(frames, Front(evs)) + if Last(evs).Block? then frames else 0
  }

  lemma {:induction false} DemandIsProduct(frames: nat, evs: seq<Event>)
    ensures Demand(frames, evs) == BlockCount(evs) * frames
  {
    if evs != [] {
      DemandIsProduct(frames, Front(evs));
      var n := BlockCount(Front(evs));
      assert (n + 1) * frames == n * frames + frames;
    }
  }

  /** Playing, or about to resume. */
  predicate Open(c: Config, s: State)
    requires Valid(c, s)
  {
    s.fade == 0 && (s.gate.buffering ==> Available(c, s) >= Target(c, s.gate))
  }

  lemma OpenAfterChunk(c: Config, s: State, xs: seq<int>)
    requires Valid(c, s) && Open(c, s)
    ensures var t := Enqueue(c, s, xs); Open(c, t) && Available(c, t) >= Available(c, s)
  {
    hide Enqueue, Available;
    EnqueueGrows(c, s, xs);
  }

  lemma OpenAfterBlock(c: Config, s: State, frames: nat)
    requires Valid(c, s) && Open(c, s) && frames <= Available(c, s)
    ensures var t := Process(c, s, frames).state; Open(c, t) && Available(c, t) == Available(c, s) - frames
    ensures GapFree(c, s, frames)
  {
    hide Queue;
    AdvanceQueue(c, s, frames);
    SameQueue(c, Advance(c, s, frames), GateAfter(c, s.gate, frames, Available(c, s)));
    assert Queue(c, s)[..frames] + Zeros(0) == Queue(c, s)[..frames];
  }

  lemma {:induction false} GapFreeWhileStocked(c: Config, s: State, evs: seq<Event>, frames: nat)
    requires Valid(c, s) && Open(c, s) && NoInterrupt(evs) && BlocksOf(frames, evs)
    requires Demand(frames, evs) <= Available(c, s)
    ensures var t := Run(c, s, evs).state;
            Open(c, t) && Available(c, t) + Demand(frames, evs) >= Available(c, s)
    ensures forall i :: 0 <= i < |evs| && evs[i].Block? ==> GapFree(c, Run(c, s, evs[..i]).state, frames)
  {
    hide Available, Open, GapFree, Process, Enqueue;
    if evs != [] {
      var front := Front(evs);
      GapFreeWhileStocked(c, s, front, frames);
      var t := Run(c, s, front).state;
      match Last(evs) {
        case Chunk(xs) => OpenAfterChunk(c, t, xs);
        case Block(f) => OpenAfterBlock(c, t, frames);
      }
      forall i | 0 <= i < |evs| && evs[i].Block?
        ensures GapFree(c, Run(c, s, evs[..i]).state, frames)
      {
        if i < |front| {
          assert front[i].Block? && evs[..i] == front[..i];
        }
      }
    }
  }

  /**
   In any reachable state that is buffering, a block is silent and changes nothing unless the
   threshold has been reached; once it has, the next floor(threshold / block) blocks have no gap,
   whatever chunks arrive between them.
   */
  lemma ResumeIsGapFree(c: Config, before: seq<Event>, evs: seq<Event>, frames: nat)
    requires ValidConfig(c) && frames > 0 && NoInterrupt(evs) && BlocksOf(frames, evs)
    requires var s := Run(c, Init(c), before).state; s.gate.buffering && s.fade == 0
    ensures var s := Run(c, Init(c), before).state;
            var target := Target(c, s.gate);
            && (target == c.startup || c.rebuffer <= target <= c.maxRebuffer)
            && (Available(c, s) < target ==> Process(c, s, frames) == Rendered(s, Zeros(frames)))
            && (Available(c, s) >= target && BlockCount(evs) <= target / frames ==>
                  forall i :: 0 <= i < |evs| && evs[i].Block? ==> GapFree(c, Run(c, s, evs[..i]).state, frames))
  {
    RunKeepsInv(c, Init(c), before);
    var s := Run(c, Init(c), before).state;
    var target := Target(c, s.gate);
    if Available(c, s) >= target && BlockCount(evs) <= target / frames {
      MulUpTo(BlockCount(evs), target, frames);
      DemandIsProduct(frames, evs);
      GapFreeWhileStocked(c, s, evs, frames);
    }
  }

  lemma MulUpTo(n: nat, target: nat, frames: nat)
    requires frames > 0 && n <= target / frames
    ensures n * frames <= target
  {
    assert n * frames <= (target / frames) * frames <= target;
  }

  // ---- The thresholds over a run ---------------------------------------------------------------------

  /** As after the constructor, and as when a fade has run out: filling, nothing heard yet. */
  predicate Fresh(s: State) {
    s.fade == 0 && s.gate.buffering && !s.gate.played
  }

  /** The start threshold applies until something has been heard, the re-buffer threshold from then on. */
  lemma {:induction false} PlayedExactly(c: Config, start: State, evs: seq<Event>)
    requires Valid(c, start) && Fresh(start) && c.startup >= 1 && NoInterrupt(evs)
    ensures var s := Run(c, start, evs).state;
            && s.fade == 0
            && (s.gate.played <==> Heard(c, start, evs) != [])
            && (s.gate.played || s.gate.buffering || Available(c, s) >= 1)
  {
    hide Enqueue, Queue, Adapt, HeardIn, Process, Available;
    if evs != [] {
      PlayedExactly(c, start, Front(evs));
      var s := Run(c, start, Front(evs)).state;
      match Last(evs)
      case Chunk(xs) =>
        HeardNothing(c, s, xs);
        EnqueueGrows(c, s, xs);
      case Block(frames) => PlayedStep(c, s, frames);
    }
  }

  /**
   What any block puts out, on the history alone: while the worklet fills, silence unless the queue holds
   the start threshold, or, once something has been heard, the re-buffer threshold; otherwise the
   queue's samples, padded with zeros when there are too few, and then it fills again.
   */
  lemma BlockExactly(c: Config, start: State, evs: seq<Event>, frames: nat)
    requires Valid(c, start) && Fresh(start) && c.startup >= 1 && NoInterrupt(evs)
    ensures var s := Run(c, start, evs).state;
            var q, r := Queue(c, s), Process(c, s, frames);
            var need := if Heard(c, start, evs) == [] then c.startup else s.gate.threshold;
            if s.gate.buffering && |q| < need then
              r.state == s && forall i :: 0 <= i < frames ==> r.out[i] == 0.0
            else
              && (forall i :: 0 <= i < frames ==> r.out[i] == if i < |q| then q[i] else 0.0)
              && Queue(c, r.state) == (if frames <= |q| then q[frames..] else [])
              && r.state.gate.buffering == (frames > |q|)
  {
    hide Enqueue, Heard;
    PlayedExactly(c, start, evs);
    var s := Run(c, start, evs).state;
    PlayedBlock(c, s, frames);
  }

  lemma PlayedBlock(c: Config, s: State, frames: nat)
    requires Valid(c, s) && s.fade == 0
    ensures var q, r := Queue(c, s), PlayBlock(c, s, frames);
            && (forall i :: 0 <= i < frames ==> r.out[i] == if i < |q| then q[i] else 0.0)
            && Queue(c, r.state) == (if frames <= |q| then q[frames..] else [])
            && r.state.gate.buffering == (frames > |q|)
  {
    hide Queue, GateAfter;
    var n := Available(c, s);
    var k := Min(frames, n);
    AdvanceQueue(c, s, k);
    SameQueue(c, Advance(c, s, k), GateAfter(c, s.gate, frames, n));
    GateBuffers(c, s.gate, frames, n);
  }

  lemma GateBuffers(c: Config, g: Gate, frames: nat, n: nat)
    ensures GateAfter(c, g, frames, n).buffering == (frames > n)
  {
  }

  // ---- What is heard is what was sent --------------------------------------------------------------------

  /** The 16-bit samples of all chunks. */
  function Incoming(evs: seq<Event>): seq<int> {
    if evs == [] then []
    else Incoming(Front(evs)) + if Last(evs).Chunk? then Last(evs).samples else []
  }

  lemma {:induction false} ArrivedScaled(evs: seq<Event>)
    ensures |Arrived(evs)| == |Incoming(evs)|
    ensures forall i :: 0 <= i < |Incoming(evs)| ==> Arrived(evs)[i] == Incoming(evs)[i] as real / 32768.0
  {
    if evs != [] {
      ArrivedScaled(Front(evs));
    }
  }

  /** Without overflow: what was heard and then what is queued are the samples sent, in order, over 32768. */
  lemma HeardIsSent(c: Config, evs: seq<Event>)
    requires ValidConfig(c) && NoInterrupt(evs) && Trace(c, Init(c), evs).drops == 0
    ensures var h, xs := Heard(c, Init(c), evs) + Queue(c, Run(c, Init(c), evs).state), Incoming(evs);
            |h| == |xs| && forall i :: 0 <= i < |xs| ==> h[i] == xs[i] as real / 32768.0
  {
    hide Heard, Run, Arrived, Incoming;
    Conservation(c, Init(c), evs);
    ArrivedScaled(evs);
    assert Queue(c, Init(c)) == [];
    assert [] + Arrived(evs) == Arrived(evs);
  }

  lemma HeardNothing(c: Config, s: State, xs: seq<int>)
    requires Valid(c, s)
    ensures HeardIn(c, s, Chunk(xs)) == []
  {
  }

  lemma PlayedStep(c: Config, s: State, frames: nat)
    requires Valid(c, s) && c.startup >= 1 && s.fade == 0
    requires s.gate.played || s.gate.buffering || Available(c, s) >= 1
    ensures var t := Process(c, s, frames).state;
            && t.fade == 0
            && (t.gate.played <==> s.gate.played || HeardIn(c, s, Block(frames)) != [])
            && (t.gate.played || t.gate.buffering || Available(c, t) >= 1)
  {
    hide Queue;
    BlockTakesPrefix(c, s, frames);
    AdaptKeepsFlags(c, s.gate.(played := s.gate.played || frames > 0, buffering := frames > Available(c, s)), frames > Available(c, s));
    if !(s.gate.buffering && Available(c, s) < Target(c, s.gate)) {
      var k := Min(frames, Available(c, s));
      assert Available(c, PlayBlock(c, s, frames).state) == Available(c, s) - k by { AdvanceQueue(c, s, k); SameQueue(c, Advance(c, s, k), GateAfter(c, s.gate, frames, Available(c, s))); }
      assert |HeardIn(c, s, Block(frames))| == k;
    }
  }

  lemma AdaptKeepsFlags(c: Config, g: Gate, underrun: bool)
    ensures var r := Adapt(c, g, underrun); r.played == g.played && r.buffering == g.buffering
  {
  }

  /** The block plays, rather than being silent while the ring fills. */
  predicate Plays(c: Config, s: State, e: Event)
    requires Valid(c, s)
  {
    e.Block? && !(s.gate.buffering && Available(c, s) < Target(c, s.gate))
  }

  function PlayingBlocks(c: Config, s: State, evs: seq<Event>): nat
    requires Valid(c, s)
  {
    if evs == [] then 0
    else PlayingBlocks(c, s, Front(evs)) + if Plays(c, Run(c, s, Front(evs)).state, Last(evs)) then 1 else 0
  }

  /** Every playing block of the run asks for more than is queued, or none does. */
  predicate Uniform(c: Config, s: State, evs: seq<Event>, underrun: bool)
    requires Valid(c, s)
  {
    evs != [] ==>
      var t := Run(c, s, Front(evs)).state;
      && Uniform(c, s, Front(evs), underrun)
      && (Plays(c, t, Last(evs)) ==> (Last(evs).frames > Available(c, t) <==> underrun))
  }

  /** The adaptation of `n` playing blocks, all with or all without an underrun. */
  function AdaptTimes(c: Config, g: Gate, underrun: bool, n: nat): Gate {
    if n == 0 then g else Adapt(c, AdaptTimes(c, g, underrun, n - 1), underrun)
  }

  predicate SameMeters(g: Gate, h: Gate) {
    g.threshold == h.threshold && g.underruns == h.underruns && g.calm == h.calm
  }

  lemma StepAdapts(c: Config, s: State, e: Event, g: Gate)
    requires Valid(c, s) && s.fade == 0 && !e.Interrupt? && SameMeters(s.gate, g)
    ensures var t := Step(c, s, e).state;
            && t.fade == 0
            && SameMeters(t.gate, if Plays(c, s, e) then Adapt(c, g, e.frames > Available(c, s)) else g)
  {
    if e.Chunk? {
      EnqueueKeepsGate(c, s, e.samples);
    }
  }

  lemma {:induction false} EnqueueKeepsGate(c: Config, s: State, xs: seq<int>)
    requires Valid(c, s)
    ensures Enqueue(c, s, xs).gate == s.gate && Enqueue(c, s, xs).fade == s.fade
  {
    if xs != [] {
      EnqueueKeepsGate(c, s, xs[..|xs| - 1]);
    }
  }

  /** In a run only playing blocks adapt the threshold, each once. */
  lemma {:induction false} RunAdapts(c: Config, s: State, evs: seq<Event>, underrun: bool)
    requires Valid(c, s) && s.fade == 0 && NoInterrupt(evs) && Uniform(c, s, evs, underrun)
    ensures var t := Run(c, s, evs).state;
            t.fade == 0 && SameMeters(t.gate, AdaptTimes(c, s.gate, underrun, PlayingBlocks(c, s, evs)))
  {
    hide Step, Adapt, Plays, SameMeters;
    if evs == [] {
      MetersSame(s.gate);
    } else {
      RunAdapts(c, s, Front(evs), underrun);
      var t := Run(c, s, Front(evs)).state;
      StepAdapts(c, t, Last(evs), AdaptTimes(c, s.gate, underrun, PlayingBlocks(c, s, Front(evs))));
    }
  }

  lemma MetersSame(g: Gate)
    ensures SameMeters(g, g)
  {
  }

  /** A stretch of calm blocks short of the limit only counts. */
  lemma {:induction false} CalmCounts(c: Config, g: Gate, n: nat)
    requires g.calm + n < c.calmBlocks
    ensures AdaptTimes(c, g, false, n) == g.(calm := g.calm + n)
  {
    if n > 0 {
      CalmCounts(c, g, n - 1);
    }
  }

  lemma CalmAdds(c: Config, g: Gate, n: nat)
    requires g.threshold > c.rebuffer && g.calm + n <= c.calmBlocks
    ensures g.calm + n < c.calmBlocks ==> AdaptTimes(c, g, false, n) == g.(calm := g.calm + n)
    ensures g.calm + n == c.calmBlocks && n > 0 ==>
              AdaptTimes(c, g, false, n) ==
              g.(calm := 0, threshold := Max(c.rebuffer, if g.threshold >= c.decay then g.threshold - c.decay else 0))
    ensures AdaptTimes(c, g, false, n).underruns == g.underruns
  {
    if n > 0 {
      CalmCounts(c, g, n - 1);
    }
  }

  /** The playing blocks of a run that ask for more than is queued. */
  function Underruns(c: Config, s: State, evs: seq<Event>): nat
    requires Valid(c, s)
  {
    if evs == [] then 0
    else
      var t := Run(c, s, Front(evs)).state;
      Underruns(c, s, Front(evs)) + if Plays(c, t, Last(evs)) && Last(evs).frames > Available(c, t) then 1 else 0
  }

  /** The playing blocks since the last underrun, or since the start of the run. */
  function Stretch(c: Config, s: State, evs: seq<Event>): nat
    requires Valid(c, s)
  {
    if evs == [] then 0
    else
      var t := Run(c, s, Front(evs)).state;
      if !Plays(c, t, Last(evs)) then Stretch(c, s, Front(evs))
      else if Last(evs).frames > Available(c, t) then 0
      else Stretch(c, s, Front(evs)) + 1
  }

  /** No stretch of the run is long enough to lower the threshold. */
  predicate Restless(c: Config, s: State, evs: seq<Event>)
    requires Valid(c, s)
  {
    Stretch(c, s, evs) < c.calmBlocks && (evs != [] ==> Restless(c, s, Front(evs)))
  }

  /** Each underrun adds one growth step, up to the maximum, as long as they do not lie too far apart. */
  lemma {:induction false} ThresholdAfterUnderruns(c: Config, s: State, evs: seq<Event>)
    requires Valid(c, s) && s.fade == 0 && NoInterrupt(evs) && Restless(c, s, evs)
    requires c.rebuffer <= s.gate.threshold <= c.maxRebuffer && s.gate.calm == 0
    ensures var t, n := Run(c, s, evs).state, Underruns(c, s, evs);
            && t.fade == 0
            && t.gate.threshold == Min(c.maxRebuffer, s.gate.threshold + n * c.growth)
            && t.gate.underruns == s.gate.underruns + n && t.gate.calm == Stretch(c, s, evs)
  {
    hide Step, Adapt, Available, Target;
    if evs != [] {
      ThresholdAfterUnderruns(c, s, Front(evs));
      assert Stretch(c, s, evs) < c.calmBlocks;
      var t, n := Run(c, s, Front(evs)).state, Underruns(c, s, Front(evs));
      MetersSame(t.gate);
      StepAdapts(c, t, Last(evs), t.gate);
      if Plays(c, t, Last(evs)) {
        AdaptsOnce(c, t.gate, s.gate.threshold, n, Last(evs).Block? && Last(evs).frames > Available(c, t));
      }
    }
  }

  lemma AdaptsOnce(c: Config, g: Gate, threshold: nat, n: nat, underrun: bool)
    requires c.rebuffer <= threshold <= c.maxRebuffer && g.threshold == Min(c.maxRebuffer, threshold + n * c.growth)
    requires g.calm + 1 < c.calmBlocks || underrun
    ensures var r := Adapt(c, g, underrun);
            && r.threshold == Min(c.maxRebuffer, threshold + (if underrun then n + 1 else n) * c.growth)
            && r.underruns == (if underrun then g.underruns + 1 else g.underruns)
            && r.calm == if underrun then 0 else g.calm + 1
  {
    assert (n + 1) * c.growth == n * c.growth + c.growth;
    MulMonotone(0, n, c.growth);
  }

  /**
   When no playing block of a run underruns, the threshold stays until the calm stretch is full, and
   the block that fills it takes off one decay step, down to the base.
   */
  lemma ThresholdAfterCalm(c: Config, s: State, evs: seq<Event>)
    requires Valid(c, s) && s.fade == 0 && NoInterrupt(evs) && Uniform(c, s, evs, false)
    requires s.gate.threshold > c.rebuffer && s.gate.calm + PlayingBlocks(c, s, evs) <= c.calmBlocks
    ensures var g, n := Run(c, s, evs).state.gate, PlayingBlocks(c, s, evs);
            && g.underruns == s.gate.underruns
            && (s.gate.calm + n < c.calmBlocks ==> g.threshold == s.gate.threshold && g.calm == s.gate.calm + n)
            && (s.gate.calm + n == c.calmBlocks && n > 0 ==>
                  g.calm == 0 && g.threshold == Max(c.rebuffer, if s.gate.threshold >= c.decay then s.gate.threshold - c.decay else 0))
  {
    hide Uniform, PlayingBlocks, AdaptTimes, Run;
    RunAdapts(c, s, evs, false);
    CalmAdds(c, s.gate, PlayingBlocks(c, s, evs));
  }

  // ---- The worklet's own constants ---------------------------------------------------------------------

  /** The worklet's lengths in milliseconds, at 24 samples each: ring, thresholds, fade and adaptation. */
  lemma WorkletTimes(ms: nat)
    requires ms == 24
    ensures var w := WORKLET;
            && w.capacity == 180000 * ms && w.startup == 120 * ms && w.rebuffer == 45 * ms && w.maxRebuffer == 120 * ms
            && w.fadeLength == 10 * ms && w.growth == 10 * ms && w.decay == 5 * ms && w.calmBlocks == 80
  {
  }

  /**
   At 24 kHz with blocks of 128 frames: a start gives at least 22 blocks without a gap, a resume after
   an underrun at least 8.
   */
  lemma WorkletResumes(before: seq<Event>, evs: seq<Event>)
    requires NoInterrupt(evs) && BlocksOf(128, evs)
    requires var s := Run(WORKLET, Init(WORKLET), before).state;
             && s.gate.buffering && s.fade == 0 && Available(WORKLET, s) >= Target(WORKLET, s.gate)
             && BlockCount(evs) <= if s.gate.played then 8 else 22
    ensures ValidConfig(WORKLET)
    ensures var s := Run(WORKLET, Init(WORKLET), before).state;
            forall i :: 0 <= i < |evs| && evs[i].Block? ==> GapFree(WORKLET, Run(WORKLET, s, evs[..i]).state, 128)
  {
    RunKeepsInv(WORKLET, Init(WORKLET), before);
    ResumeIsGapFree(WORKLET, before, evs, 128);
  }

  /**
   The worklet fills after an underrun until it has 1080 samples and 240 more for every underrun so far,
   at most 2880: below that a block is silent, from it on the block plays.
   */
  lemma WorkletResumesExactly(evs: seq<Event>, frames: nat)
    requires NoInterrupt(evs) && Restless(WORKLET, Init(WORKLET), evs) && Underruns(WORKLET, Init(WORKLET), evs) > 0
    requires Run(WORKLET, Init(WORKLET), evs).state.gate.buffering
    ensures var s := Run(WORKLET, Init(WORKLET), evs).state;
            var q, r := Queue(WORKLET, s), Process(WORKLET, s, frames);
            var n := 1080 + 240 * Underruns(WORKLET, Init(WORKLET), evs);
            if |q| < (if n <= 2880 then n else 2880) then
              r.state == s && forall i :: 0 <= i < frames ==> r.out[i] == 0.0
            else
              forall i :: 0 <= i < frames ==> r.out[i] == if i < |q| then q[i] else 0.0
  {
    hide Run, Restless, Underruns, Stretch, Heard, Queue, Process;
    var start := Init(WORKLET);
    ThresholdAfterUnderruns(WORKLET, start, evs);
    UnderrunHeard(WORKLET, start, evs);
    BlockExactly(WORKLET, start, evs, frames);
  }

  /** Before an underrun something was heard. */
  lemma {:induction false} UnderrunHeard(c: Config, start: State, evs: seq<Event>)
    requires Valid(c, start) && Fresh(start) && c.startup >= 1 && NoInterrupt(evs) && Underruns(c, start, evs) > 0
    ensures Heard(c, start, evs) != []
  {
    hide Enqueue, Queue, Adapt, HeardIn, Available;
    var s := Run(c, start, Front(evs)).state;
    PlayedExactly(c, start, Front(evs));
    PlayedExactly(c, start, evs);
    if Plays(c, s, Last(evs)) && Last(evs).frames > Available(c, s) {
      AdaptKeepsFlags(c, s.gate.(played := true, buffering := true), true);
    } else {
      UnderrunHeard(c, start, Front(evs));
    }
  }
}
