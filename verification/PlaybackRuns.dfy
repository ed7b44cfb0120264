/** What every run of the playback worklet keeps. */
module PlaybackRuns {
  import opened Arith
  import opened Seqs
  import opened Options
  import opened PlaybackSpec

  // ---- The ring is a drop-oldest queue ----------------------------------------------------

  /** The newest `n` elements. */
  function Keep(q: seq<real>, n: nat): seq<real> {
    if |q| <= n then q else q[|q| - n..]
  }

  lemma PushQueue(c: Config, s: State, x: real)
    requires Valid(c, s)
    ensures Queue(c, Push(c, s, x)) == Keep(Queue(c, s) + [x], c.capacity - 1)
  {
    var q, t := Queue(c, s), Push(c, s, x);
    var gone := if |q| < c.capacity - 1 then 0 else 1;
    assert Available(c, t) == |q| + 1 - gone;
    forall k | 0 <= k < Available(c, t)
      ensures Queue(c, t)[k] == (q + [x])[k + gone]
    {
      assert Plus(t.read, k, c.capacity) == Plus(s.read, k + gone, c.capacity);
    }
  }

  lemma AdvanceQueue(c: Config, s: State, k: nat)
    requires Valid(c, s) && k <= Available(c, s)
    ensures Queue(c, Advance(c, s, k)) == Queue(c, s)[k..]
  {
  }

  lemma KeepFold(q: seq<real>, front: seq<real>, x: real, n: nat)
    ensures Keep(Keep(q + front, n) + [x], n) == Keep(q + (front + [x]), n)
  {
    assert q + (front + [x]) == (q + front) + [x];
    KeepAppend(q + front, x, n);
  }

  lemma KeepAppend(q: seq<real>, x: real, n: nat)
    ensures Keep(Keep(q, n) + [x], n) == Keep(q + [x], n)
  {
  }

  lemma ToFloatsAppend(front: seq<int>, x: int)
    ensures ToFloats(front + [x]) == ToFloats(front) + [ToFloat(x)]
  {
  }

  lemma {:induction false} EnqueueQueue(c: Config, s: State, xs: seq<int>)
    requires Valid(c, s)
    ensures Queue(c, Enqueue(c, s, xs)) == Keep(Queue(c, s) + ToFloats(xs), c.capacity - 1)
  {
    var q := Queue(c, s);
    if xs == [] {
      assert q + ToFloats(xs) == q;
    } else {
      var front, x := xs[..|xs| - 1], xs[|xs| - 1];
      assert xs == front + [x];
      EnqueueQueue(c, s, front);
      PushQueue(c, Enqueue(c, s, front), ToFloat(x));
      KeepFold(q, ToFloats(front), ToFloat(x), c.capacity - 1);
      ToFloatsAppend(front, x);
    }
  }

  /** The reference machine: a plain queue behind the same gate. */
  datatype Fifo = Fifo(queue: seq<real>, gate: Gate)
  datatype FifoRendered = FifoRendered(fifo: Fifo, out: seq<real>)

  function FifoStep(c: Config, f: Fifo, e: Event): FifoRendered
    requires ValidConfig(c) && !e.Interrupt?
  {
    match e
    case Chunk(xs) => FifoRendered(f.(queue := Keep(f.queue + ToFloats(xs), c.capacity - 1)), [])
    case Block(frames) =>
      if f.gate.buffering && |f.queue| < Target(c, f.gate) then FifoRendered(f, Zeros(frames))
      else
        var k := Min(frames, |f.queue|);
        FifoRendered(Fifo(f.queue[k..], GateAfter(c, f.gate, frames, |f.queue|)),
                     f.queue[..k] + Zeros(frames - k))
  }

  predicate NoInterrupt(evs: seq<Event>) {
    forall i :: 0 <= i < |evs| ==> !evs[i].Interrupt?
  }

  function FifoRun(c: Config, f: Fifo, evs: seq<Event>): FifoRendered
    requires ValidConfig(c) && NoInterrupt(evs)
  {
    if evs == [] then FifoRendered(f, [])
    else
      var before := FifoRun(c, f, Front(evs));
      var after := FifoStep(c, before.fifo, Last(evs));
      FifoRendered(after.fifo, before.out + after.out)
  }

  function Abs(c: Config, s: State): Fifo
    requires Valid(c, s)
  {
    Fifo(Queue(c, s), s.gate)
  }

  lemma {:induction false} RingRefinesFifo(c: Config, s: State, evs: seq<Event>)
    requires Valid(c, s) && s.fade == 0 && NoInterrupt(evs)
    ensures var r := Run(c, s, evs);
            && r.state.fade == 0
            && FifoRendered(Abs(c, r.state), r.out) == FifoRun(c, Abs(c, s), evs)
  {
    if evs != [] {
      RingRefinesFifo(c, s, Front(evs));
      var t := Run(c, s, Front(evs)).state;
      match Last(evs)
      case Chunk(xs) => EnqueueQueue(c, t, xs);
      case Block(frames) => AdvanceQueue(c, t, Min(frames, Available(c, t)));
    }
  }

  // ---- Invariant of every run ---------------------------------------------------------------

  /** A fade always has a mark and always has enough samples left to finish. */
  predicate Inv(c: Config, s: State) {
    && Valid(c, s)
    && s.fade <= c.fadeLength
    && s.fade <= Available(c, s)
    && (s.fade > 0 <==> s.mark.Some?)
    && c.rebuffer <= s.gate.threshold <= c.maxRebuffer
  }

  lemma {:induction false} EnqueueGrows(c: Config, s: State, xs: seq<int>)
    requires Valid(c, s)
    ensures Available(c, s) <= Available(c, Enqueue(c, s, xs))
  {
    EnqueueQueue(c, s, xs);
  }

  lemma StepKeepsInv(c: Config, s: State, e: Event)
    requires Inv(c, s)
    ensures Inv(c, Step(c, s, e).state)
  {
    match e
    case Chunk(xs) => EnqueueGrows(c, s, xs);
    case Interrupt =>
    case Block(frames) =>
  }

  lemma {:induction false} RunKeepsInv(c: Config, s: State, evs: seq<Event>)
    requires Inv(c, s)
    ensures Inv(c, Run(c, s, evs).state)
  {
    if evs != [] {
      RunKeepsInv(c, s, Front(evs));
      StepKeepsInv(c, Run(c, s, Front(evs)).state, Last(evs));
    }
  }

  /** In every reachable state a fade that runs out finds its mark, and takes a sample a frame. */
  lemma FadeAlwaysHasMark(c: Config, evs: seq<Event>, frames: nat)
    requires ValidConfig(c)
    ensures var s := Run(c, Init(c), evs).state;
            s.fade > 0 ==> s.mark.Some? && Available(c, s) > 0 && FadeTake(c, s, frames) == Min(frames, s.fade)
  {
    RunKeepsInv(c, Init(c), evs);
  }
}
