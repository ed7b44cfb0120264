/** The fade-out after an interrupt: what is faded, what is discarded and what survives. */
module PlaybackFade {
  import opened Arith
  import opened Seqs
  import opened Options
  import opened PlaybackSpec
  import opened PlaybackRuns

  /** Samples overwritten by an event. */
  function Overwritten(c: Config, s: State, e: Event): nat
    requires Valid(c, s)
  {
    if e.Chunk? && Available(c, s) + |e.samples| > c.capacity - 1
    then Available(c, s) + |e.samples| - (c.capacity - 1) else 0
  }

  /** at, at + 1, ..., at + k - 1 */
  function From(at: nat, k: nat): (r: seq<nat>)
    ensures |r| == k && forall i :: 0 <= i < k ==> r[i] == at + i
  {
    seq(k, i requires 0 <= i => at + i)
  }

  /**
   A run with its bookkeeping: what arrived, how many samples were overwritten, and where each
   faded sample stood in the arrival order, counting from the queue at the start of the run.
   */
  datatype Trail = Trail(state: State, out: seq<real>, arrived: seq<real>, positions: seq<nat>, drops: nat)

  function Follow(c: Config, t: Trail, e: Event): (r: Trail)
    requires Valid(c, t.state)
    ensures Valid(c, r.state)
  {
    var after := Step(c, t.state, e);
    Trail(after.state,
          t.out + after.out,
          t.arrived + (if e.Chunk? then ToFloats(e.samples) else []),
          t.positions + (if e.Block? then From(|t.positions| + t.drops, FadeTake(c, t.state, e.frames)) else []),
          t.drops + Overwritten(c, t.state, e))
  }

  function Trace(c: Config, s: State, evs: seq<Event>): (r: Trail)
    requires Valid(c, s)
    ensures Rendered(r.state, r.out) == Run(c, s, evs)
    ensures r.arrived == Arrived(evs)
  {
    if evs == [] then Trail(s, [], [], [], 0)
    else Follow(c, Trace(c, s, Front(evs)), Last(evs))
  }

  /** The fade is still going on before each event of the run. */
  predicate Fading(c: Config, s: State, evs: seq<Event>)
    requires Valid(c, s)
  {
    forall i :: 0 <= i < |evs| ==> Run(c, s, evs[..i]).state.fade > 0
  }

  /** The i-th faded sample of the output is the one its position names, at the i-th gain. */
  predicate FadedFrom(c: Config, out: seq<real>, length: nat, stream: seq<real>, pos: seq<nat>) {
    && ValidConfig(c)
    && |pos| <= length && |pos| <= |out|
    && forall i :: 0 <= i < |pos| ==> pos[i] < |stream| && out[i] == Faded(c, stream[pos[i]], length - i)
  }

  /** Taken and overwritten samples are gone, the rest of the arrival stream is queued. */
  predicate Tracked(c: Config, length: nat, queue: seq<real>, out: seq<real>, pos: seq<nat>, drops: nat, stream: seq<real>) {
    && |pos| == |out|
    && |pos| + drops <= |stream|
    && queue == stream[|pos| + drops..]
    && FadedFrom(c, out, length, stream, pos)
    && forall i :: 0 <= i < |pos| ==> pos[i] < |pos| + drops
  }

  lemma TrackedChunk(c: Config, length: nat, queue: seq<real>, out: seq<real>, pos: seq<nat>, drops: nat,
                     stream: seq<real>, news: seq<real>, over: nat)
    requires Tracked(c, length, queue, out, pos, drops, stream)
    requires |queue| < c.capacity
    requires over == if |queue| + |news| > c.capacity - 1 then |queue| + |news| - (c.capacity - 1) else 0
    ensures Tracked(c, length, Keep(queue + news, c.capacity - 1), out, pos, drops + over, stream + news)
  {
    assert (stream + news)[|pos| + drops..] == queue + news;
  }

  lemma TrackedBlock(c: Config, length: nat, queue: seq<real>, out: seq<real>, pos: seq<nat>, drops: nat,
                     stream: seq<real>, block: seq<real>, taken: seq<nat>)
    requires Tracked(c, length, queue, out, pos, drops, stream)
    requires |taken| == |block| <= |queue| && |pos| + |block| <= length
    requires forall i :: 0 <= i < |block| ==> block[i] == Faded(c, queue[i], length - |pos| - i)
    requires forall i :: 0 <= i < |taken| ==> taken[i] == |pos| + drops + i
    ensures Tracked(c, length, queue[|block|..], out + block, pos + taken, drops, stream)
  {
    assert forall i :: 0 <= i < |block| ==> queue[i] == stream[|pos| + drops + i];
  }

  /** `t` follows a fade that was set up in `s`. */
  predicate Tracks(c: Config, s: State, t: Trail)
    requires Valid(c, s) && Valid(c, t.state)
  {
    && |t.positions| + t.state.fade == s.fade
    && t.state.mark == s.mark
    && Tracked(c, s.fade, Queue(c, t.state), t.out, t.positions, t.drops, Queue(c, s) + t.arrived)
  }

  lemma TracksChunk(c: Config, s: State, t: Trail, e: Event)
    requires Valid(c, s) && Valid(c, t.state) && e.Chunk? && Tracks(c, s, t)
    ensures Tracks(c, s, Follow(c, t, e))
  {
    var q := Queue(c, s);
    TrackedChunk(c, s.fade, Queue(c, t.state), t.out, t.positions, t.drops, q + t.arrived,
                 ToFloats(e.samples), Overwritten(c, t.state, e));
    EnqueueQueue(c, t.state, e.samples);
    assert q + (t.arrived + ToFloats(e.samples)) == (q + t.arrived) + ToFloats(e.samples);
    assert t.out + [] == t.out && t.positions + [] == t.positions;
  }

  lemma TracksBlock(c: Config, s: State, t: Trail, e: Event)
    requires Valid(c, s) && Inv(c, t.state) && e.Block? && Tracks(c, s, t)
    requires t.state.fade > e.frames
    ensures Tracks(c, s, Follow(c, t, e))
  {
    hide Queue, Follow, FadeOut;
    var taken := From(|t.positions| + t.drops, e.frames);
    FollowFading(c, t, e);
    FadeOutFull(c, t.state, e.frames);
    TrackedBlock(c, s.fade, Queue(c, t.state), t.out, t.positions, t.drops, Queue(c, s) + t.arrived,
                 FadeOut(c, t.state, e.frames), taken);
    AdvanceQueue(c, t.state, e.frames);
  }

  lemma FollowFading(c: Config, t: Trail, e: Event)
    requires Inv(c, t.state) && e.Block? && t.state.fade > e.frames
    ensures var u := Advance(c, t.state, e.frames);
            && Follow(c, t, e) == Trail(u.(fade := t.state.fade - e.frames), t.out + FadeOut(c, t.state, e.frames),
                                        t.arrived, t.positions + From(|t.positions| + t.drops, e.frames), t.drops)
            && Queue(c, u.(fade := t.state.fade - e.frames)) == Queue(c, u)
  {
    hide FadeOut;
    assert t.arrived + [] == t.arrived;
  }

  lemma FadeOutFull(c: Config, s: State, frames: nat)
    requires Valid(c, s) && frames < s.fade <= Available(c, s)
    ensures forall i :: 0 <= i < frames ==> FadeOut(c, s, frames)[i] == Faded(c, Queue(c, s)[i], s.fade - i)
  {
    hide Queue;
  }

  lemma {:induction false} FadingPrefix(c: Config, s: State, evs: seq<Event>)
    requires Valid(c, s) && evs != [] && Fading(c, s, evs)
    ensures Fading(c, s, Front(evs)) && Run(c, s, Front(evs)).state.fade > 0
  {
    forall i | 0 <= i < |evs| - 1
      ensures Run(c, s, Front(evs)[..i]).state.fade > 0
    {
      assert Front(evs)[..i] == evs[..i];
    }
  }

  /** While the fade lasts, the ring is the arrival stream from the last sample taken or overwritten. */
  lemma {:induction false} FadeTracks(c: Config, s: State, evs: seq<Event>)
    requires Inv(c, s) && NoInterrupt(evs) && Fading(c, s, evs)
    requires Run(c, s, evs).state.fade > 0
    ensures Tracks(c, s, Trace(c, s, evs))
  {
    if evs == [] {
      assert Queue(c, s) + [] == Queue(c, s);
    } else {
      FadingPrefix(c, s, evs);
      FadeTracks(c, s, Front(evs));
      RunKeepsInv(c, s, Front(evs));
      if Last(evs).Chunk? {
        TracksChunk(c, s, Trace(c, s, Front(evs)), Last(evs));
      } else {
        TracksBlock(c, s, Trace(c, s, Front(evs)), Last(evs));
      }
    }
  }

  lemma {:induction false} EnqueueCells(c: Config, s: State, xs: seq<int>)
    requires Valid(c, s) && |xs| < c.capacity
    ensures var t := Enqueue(c, s, xs);
            && t.write == Plus(s.write, |xs|, c.capacity)
            && forall p :: 0 <= p < c.capacity ==> 
                 t.buf[p] == var j := if p >= s.write then p - s.write else p + c.capacity - s.write;
                             if j < |xs| then ToFloat(xs[j]) else s.buf[p]
  {
    if xs != [] {
      EnqueueCells(c, s, xs[..|xs| - 1]);
    }
  }

  /** One more chunk, while the arrivals still fit in the ring. */
  lemma NewCellsChunk(c: Config, w: nat, t: State, a: seq<real>, xs: seq<int>)
    requires Valid(c, t) && w < c.capacity && |a| + |xs| < c.capacity
    requires t.write == Plus(w, |a|, c.capacity)
    requires forall j :: 0 <= j < |a| ==> t.buf[Plus(w, j, c.capacity)] == a[j]
    ensures var u := Enqueue(c, t, xs);
            && u.write == Plus(w, |a| + |xs|, c.capacity)
            && forall j :: 0 <= j < |a| + |xs| ==> u.buf[Plus(w, j, c.capacity)] == (a + ToFloats(xs))[j]
  {
    EnqueueCells(c, t, xs);
    hide Enqueue;
    forall j | 0 <= j < |a| + |xs|
      ensures Enqueue(c, t, xs).buf[Plus(w, j, c.capacity)] == (a + ToFloats(xs))[j]
    {
      if j < |a| {
        assert t.buf[Plus(w, j, c.capacity)] == a[j];
      } else {
        assert Plus(w, j, c.capacity) == Plus(t.write, j - |a|, c.capacity);
      }
    }
  }

  /** Fewer than a ringful of arrivals all lie in the ring, from the write index on. */
  lemma {:induction false} NewCells(c: Config, s: State, evs: seq<Event>)
    requires Valid(c, s) && NoInterrupt(evs) && |Arrived(evs)| < c.capacity
    ensures var t, a := Run(c, s, evs).state, Arrived(evs);
            && t.write == Plus(s.write, |a|, c.capacity)
            && forall j :: 0 <= j < |a| ==> t.buf[Plus(s.write, j, c.capacity)] == a[j]
  {
    if evs != [] {
      NewCells(c, s, Front(evs));
      if Last(evs).Chunk? {
        NewCellsChunk(c, s.write, Run(c, s, Front(evs)).state, Arrived(Front(evs)), Last(evs).samples);
      }
    }
  }

  /** The block in which the fade runs out. */
  lemma FadeEnds(c: Config, s: State, t: Trail, frames: nat)
    requires Valid(c, s) && Inv(c, t.state) && Tracks(c, s, t)
    requires 0 < t.state.fade <= frames
    ensures var r := Follow(c, t, Block(frames));
            && |r.positions| == s.fade
            && FadedFrom(c, r.out, s.fade, Queue(c, s) + t.arrived, r.positions)
            && (forall i :: s.fade <= i < |r.out| ==> r.out[i] == 0.0)
            && (forall i :: 0 <= i < s.fade ==> r.positions[i] < s.fade + t.drops)
            && r.positions[s.fade - 1] == s.fade + t.drops - 1
            && r.state == t.state.(read := s.mark.value, mark := None, fade := 0)
  {
    hide Queue;
    var k := t.state.fade;
    TrackedBlock(c, s.fade, Queue(c, t.state), t.out, t.positions, t.drops, Queue(c, s) + t.arrived,
                 FadeOut(c, t.state, frames)[..k], From(|t.positions| + t.drops, k));
    var out := t.out + FadeOut(c, t.state, frames)[..k];
    assert Follow(c, t, Block(frames)).out[..s.fade] == out;
  }

  lemma QueueFromMark(c: Config, s: State, t: State, a: seq<real>)
    requires Valid(c, s) && Valid(c, t) && |a| < c.capacity
    requires t.read == s.write && t.write == Plus(s.write, |a|, c.capacity)
    requires forall j :: 0 <= j < |a| ==> t.buf[Plus(s.write, j, c.capacity)] == a[j]
    ensures Queue(c, t) == a
  {
  }

  lemma {:induction false} FadeKeepsGate(c: Config, s: State, evs: seq<Event>)
    requires Valid(c, s) && NoInterrupt(evs) && Fading(c, s, evs)
    ensures Run(c, s, evs).state.gate == s.gate
  {
    hide Enqueue, FadeOut, Queue;
    if evs != [] {
      FadingPrefix(c, s, evs);
      FadeKeepsGate(c, s, Front(evs));
    }
  }

  /**
   The silence after an interrupt: when the fade has run out, the worklet buffers up to the start
   threshold again, with the re-buffer threshold back at its base.
   */
  lemma InterruptRestartsBuffering(c: Config, s: State, evs: seq<Event>, frames: nat)
    requires Inv(c, s) && NoInterrupt(evs) && Fading(c, EndOfAudio(c, s), evs)
    requires Run(c, EndOfAudio(c, s), evs).state.fade == 0
    ensures var t := Run(c, EndOfAudio(c, s), evs).state;
            && t.gate.threshold == c.rebuffer && t.gate.buffering && !t.gate.played
            && (Available(c, t) < c.startup ==> Process(c, t, frames) == Rendered(t, Zeros(frames)))
  {
    hide Enqueue, FadeOut, Queue;
    FadeKeepsGate(c, EndOfAudio(c, s), evs);
  }

  /**
   A complete fade, from the interrupt in `s` to the block in which it runs out, however chunks and
   blocks interleave. The fade takes min(fadeLength, queued) samples at gains falling to 1/fadeLength,
   then is silent. It never reaches a sample that arrived after the interrupt iff the ring overwrote
   no more than the samples the fade leaves over; and what is queued afterwards is exactly what
   arrived after the interrupt iff that was less than a ringful.
   */
  lemma FadeBoundary(c: Config, s: State, evs: seq<Event>)
    requires Inv(c, s) && Available(c, s) > 0 && NoInterrupt(evs) && evs != []
    requires Fading(c, EndOfAudio(c, s), evs)
    requires Run(c, EndOfAudio(c, s), evs).state.fade == 0
    ensures var q, n := Queue(c, s), Min(c.fadeLength, Available(c, s));
            var t := Trace(c, EndOfAudio(c, s), evs);
            && |t.positions| == n
            && FadedFrom(c, t.out, n, q + t.arrived, t.positions)
            && (forall i :: n <= i < |t.out| ==> t.out[i] == 0.0)
            && ((forall i :: 0 <= i < n ==> t.positions[i] < |q|) <==> n + t.drops <= |q|)
            && (Queue(c, t.state) == t.arrived <==> |t.arrived| < c.capacity)
            && t.state.mark == None
  {
    var i := EndOfAudio(c, s);
    StepKeepsInv(c, s, Interrupt);
    FadingPrefix(c, i, evs);
    FadeTracks(c, i, Front(evs));
    RunKeepsInv(c, i, Front(evs));
    var t := Trace(c, i, Front(evs));
    assert Last(evs).Block?;
    FadeEnds(c, i, t, Last(evs).frames);
    assert t.arrived + [] == t.arrived;
    var r := Trace(c, i, evs);
    assert r == Follow(c, t, Last(evs));
    if |t.arrived| < c.capacity {
      NewCells(c, i, Front(evs));
      QueueFromMark(c, i, r.state, t.arrived);
    }
    assert Queue(c, i) == Queue(c, s);
  }

  lemma {:induction false} WithoutDropsInOrder(c: Config, s: State, evs: seq<Event>)
    requires Valid(c, s) && Trace(c, s, evs).drops == 0
    ensures var p := Trace(c, s, evs).positions; forall i :: 0 <= i < |p| ==> p[i] == i
  {
    if evs != [] {
      WithoutDropsInOrder(c, s, Front(evs));
    }
  }

  /**
   Without overflow: exactly the oldest n samples queued at the interrupt are faded, in order, at gains
   that fall in equal steps from n / fadeLength to 1 / fadeLength; then there is silence, and exactly
   the samples that arrived since are queued.
   */
  lemma FadeBoundaryWithoutOverflow(c: Config, s: State, evs: seq<Event>)
    requires Inv(c, s) && Available(c, s) > 0 && NoInterrupt(evs) && evs != []
    requires Fading(c, EndOfAudio(c, s), evs)
    requires Run(c, EndOfAudio(c, s), evs).state.fade == 0
    requires Trace(c, EndOfAudio(c, s), evs).drops == 0
    ensures var q, n := Queue(c, s), if c.fadeLength <= |Queue(c, s)| then c.fadeLength else |Queue(c, s)|;
            var r := Run(c, EndOfAudio(c, s), evs);
            && n <= |r.out| && Queue(c, r.state) == Arrived(evs)
            && (forall i :: 0 <= i < n ==> r.out[i] == q[i] * ((n - i) as real / c.fadeLength as real))
            && (forall i :: n <= i < |r.out| ==> r.out[i] == 0.0)
  {
    hide Run, EndOfAudio, Queue, Trace, Fading, NoInterrupt, Available, Arrived, Faded;
    FadesInOrder(c, s, evs);
    var q, n, out := Queue(c, s), Min(c.fadeLength, Available(c, s)), Run(c, EndOfAudio(c, s), evs).out;
    forall i | 0 <= i < n
      ensures out[i] == q[i] * ((n - i) as real / c.fadeLength as real)
    {
      FadedValue(c, q[i], n - i);
    }
  }

  lemma FadedValue(c: Config, x: real, remaining: nat)
    requires c.fadeLength >= 1
    ensures Faded(c, x, remaining) == x * (remaining as real / c.fadeLength as real)
  {
  }

  lemma FadesInOrder(c: Config, s: State, evs: seq<Event>)
    requires Inv(c, s) && Available(c, s) > 0 && NoInterrupt(evs) && evs != []
    requires Fading(c, EndOfAudio(c, s), evs)
    requires Run(c, EndOfAudio(c, s), evs).state.fade == 0
    requires Trace(c, EndOfAudio(c, s), evs).drops == 0
    ensures var q, n := Queue(c, s), Min(c.fadeLength, Available(c, s));
            var r := Run(c, EndOfAudio(c, s), evs);
            && n <= |r.out| && Queue(c, r.state) == Arrived(evs)
            && (forall i :: 0 <= i < n ==> r.out[i] == Faded(c, q[i], n - i))
            && (forall i :: n <= i < |r.out| ==> r.out[i] == 0.0)
  {
    hide Faded;
    var i := EndOfAudio(c, s);
    StepKeepsInv(c, s, Interrupt);
    FadeBoundary(c, s, evs);
    var r := Trace(c, i, evs);
    WithoutDropsInOrder(c, i, evs);
    FadingPrefix(c, i, evs);
    assert Last(evs).Block?;
    WithoutDropsFits(c, i, evs);
    FadedInOrder(c, r.out, i.fade, Queue(c, s), r.arrived, r.positions);
  }

  lemma FadedInOrder(c: Config, out: seq<real>, length: nat, q: seq<real>, arrived: seq<real>, pos: seq<nat>)
    requires FadedFrom(c, out, length, q + arrived, pos)
    requires |pos| == length <= |q| && forall i :: 0 <= i < |pos| ==> pos[i] == i
    ensures forall i :: 0 <= i < length ==> out[i] == Faded(c, q[i], length - i)
  {
  }

  /** A fading run that overwrites nothing brings in less than a ringful. */
  lemma WithoutDropsFits(c: Config, s: State, evs: seq<Event>)
    requires Inv(c, s) && NoInterrupt(evs) && evs != [] && Last(evs).Block? && Fading(c, s, evs)
    requires Trace(c, s, evs).drops == 0
    ensures |Arrived(evs)| < c.capacity
  {
    FadingPrefix(c, s, evs);
    FadeTracks(c, s, Front(evs));
  }
}
