/**
 The playback worklet (frontend/public/pcm-player-processor.js) as a state machine on values.
 Samples are exact reals; capacity, thresholds and fade length are parameters.
 The class in Playback.dfy is proved to compute exactly these transitions.
 */
module PlaybackSpec {
  import opened Arith
  import opened Seqs
  import opened Options

  /** The constants of the worklet's constructor. */
  datatype Config = Config(
    capacity: nat, startup: nat, rebuffer: nat, maxRebuffer: nat,
    fadeLength: nat, growth: nat, decay: nat, calmBlocks: nat)

  /** 24 kHz, 180 s ring; 120 ms start, 45..120 ms re-buffer, 10 ms fade. */
  const WORKLET := Config(4320000, 2880, 1080, 2880, 240, 240, 120, 80)

  predicate ValidConfig(c: Config) {
    c.capacity >= 1 && c.fadeLength >= 1 && c.rebuffer <= c.maxRebuffer
  }

  /** When to be silent: the buffering flags and the adaptive re-buffer threshold. */
  datatype Gate = Gate(threshold: nat, buffering: bool, played: bool, underruns: nat, calm: nat)

  datatype State = State(
    buf: seq<real>, read: nat, write: nat, gate: Gate, fade: nat, mark: Option<nat>)

  predicate Valid(c: Config, s: State) {
    && ValidConfig(c)
    && |s.buf| == c.capacity
    && s.read < c.capacity
    && s.write < c.capacity
    && (s.mark.Some? ==> s.mark.value < c.capacity)
  }

  function Zeros(n: nat): (z: seq<real>)
    ensures |z| == n
  {
    seq(n, _ => 0.0)
  }

  function Init(c: Config): State {
    State(Zeros(c.capacity), 0, 0, Gate(c.rebuffer, true, false, 0, 0), 0, None)
  }

  function ToFloat(sample: int): real {
    sample as real / 32768.0
  }

  function ToFloats(samples: seq<int>): (r: seq<real>)
    ensures |r| == |samples|
  {
    seq(|samples|, i requires 0 <= i < |samples| => ToFloat(samples[i]))
  }

  /** Ring position `k` cells after `i`. */
  function Plus(i: nat, k: nat, n: nat): (r: nat)
    requires i < n && k <= n
    ensures r < n
  {
    if i + k < n then i + k else i + k - n
  }

  function Available(c: Config, s: State): (n: nat)
    requires Valid(c, s)
    ensures n < c.capacity
    ensures Plus(s.read, n, c.capacity) == s.write
  {
    if s.write >= s.read then s.write - s.read else c.capacity - s.read + s.write
  }

  /** The queued samples, oldest first: what the ring stands for. */
  function Queue(c: Config, s: State): (q: seq<real>)
    requires Valid(c, s)
    ensures |q| == Available(c, s)
  {
    seq(Available(c, s), k requires 0 <= k < Available(c, s) => s.buf[Plus(s.read, k, c.capacity)])
  }

  // ---- Transitions ----------------------------------------------------------------------

  function Push(c: Config, s: State, x: real): (r: State)
    requires Valid(c, s)
    ensures Valid(c, r)
  {
    var w := Plus(s.write, 1, c.capacity);
    s.(buf := s.buf[s.write := x],
       write := w,
       read := if w == s.read then Plus(s.read, 1, c.capacity) else s.read)
  }

  function Enqueue(c: Config, s: State, xs: seq<int>): (r: State)
    requires Valid(c, s)
    ensures Valid(c, r)
    ensures r == s.(buf := r.buf, read := r.read, write := r.write)
  {
    if xs == [] then s
    else Push(c, Enqueue(c, s, xs[..|xs| - 1]), ToFloat(xs[|xs| - 1]))
  }

  function EndOfAudio(c: Config, s: State): (r: State)
    requires Valid(c, s)
    ensures Valid(c, r)
  {
    var n := Available(c, s);
    var t := if n > 0
             then s.(mark := Some(s.write), fade := Min(c.fadeLength, n))
             else s.(mark := None, read := s.write);
    t.(gate := s.gate.(buffering := true, played := false, threshold := c.rebuffer))
  }

  /** Drop the `k` oldest samples. */
  function Advance(c: Config, s: State, k: nat): (r: State)
    requires Valid(c, s) && k <= Available(c, s)
    ensures Valid(c, r)
  {
    s.(read := Plus(s.read, k, c.capacity))
  }

  datatype Rendered = Rendered(state: State, out: seq<real>)

  function Gain(c: Config, remaining: nat): real
    requires c.fadeLength >= 1
  {
    remaining as real / c.fadeLength as real
  }

  function Faded(c: Config, x: real, remaining: nat): real
    requires c.fadeLength >= 1
  {
    x * Gain(c, remaining)
  }

  /** Number of samples a fading block takes from the ring. */
  function FadeTake(c: Config, s: State, frames: nat): (k: nat)
    requires Valid(c, s)
    ensures k <= frames && k <= s.fade && k <= Available(c, s)
  {
    Min(frames, Min(s.fade, Available(c, s)))
  }

  function FadeOut(c: Config, s: State, frames: nat): (out: seq<real>)
    requires Valid(c, s)
    ensures |out| == frames
  {
    var q, k := Queue(c, s), FadeTake(c, s, frames);
    seq(frames, i requires 0 <= i < frames =>
      if i < k then Faded(c, q[i], s.fade - i) else 0.0)
  }

  function FadeBlock(c: Config, s: State, frames: nat): (r: Rendered)
    requires Valid(c, s)
    ensures Valid(c, r.state) && |r.out| == frames
  {
    var k := FadeTake(c, s, frames);
    var t := Advance(c, s, k).(fade := s.fade - k);
    var u := if t.fade > 0 then t
             else match t.mark
               case Some(m) => t.(read := m, mark := None)
               case None => t.(read := t.write);
    Rendered(u, FadeOut(c, s, frames))
  }

  function Target(c: Config, g: Gate): nat {
    if g.played then g.threshold else c.startup
  }

  /** The re-buffer threshold adapts: up on an underrun, down after a calm stretch. */
  function Adapt(c: Config, g: Gate, underrun: bool): Gate {
    if underrun then
      g.(underruns := g.underruns + 1,
         calm := 0,
         threshold := Min(c.maxRebuffer, Max(g.threshold, c.rebuffer) + c.growth))
    else if g.calm + 1 >= c.calmBlocks && g.threshold > c.rebuffer then
      g.(calm := 0,
         threshold := if g.threshold >= c.rebuffer + c.decay then g.threshold - c.decay else c.rebuffer)
    else
      g.(calm := g.calm + 1)
  }

  /** The gate after a playing block of `frames` with `n` samples queued. */
  function GateAfter(c: Config, g: Gate, frames: nat, n: nat): Gate {
    Adapt(c, g.(played := g.played || frames > 0, buffering := frames > n), frames > n)
  }

  function PlayBlock(c: Config, s: State, frames: nat): (r: Rendered)
    requires Valid(c, s)
    ensures Valid(c, r.state) && |r.out| == frames
  {
    var n := Available(c, s);
    var k := Min(frames, n);
    Rendered(Advance(c, s, k).(gate := GateAfter(c, s.gate, frames, n)),
             Queue(c, s)[..k] + Zeros(frames - k))
  }

  function Process(c: Config, s: State, frames: nat): (r: Rendered)
    requires Valid(c, s)
    ensures Valid(c, r.state) && |r.out| == frames
  {
    if s.fade > 0 then FadeBlock(c, s, frames)
    else if s.gate.buffering && Available(c, s) < Target(c, s.gate) then Rendered(s, Zeros(frames))
    else PlayBlock(c, s, frames)
  }

  // ---- Runs -----------------------------------------------------------------------------

  datatype Event = Chunk(samples: seq<int>) | Interrupt | Block(frames: nat)

  function Step(c: Config, s: State, e: Event): (r: Rendered)
    requires Valid(c, s)
    ensures Valid(c, r.state)
  {
    match e
    case Chunk(xs) => Rendered(Enqueue(c, s, xs), [])
    case Interrupt => Rendered(EndOfAudio(c, s), [])
    case Block(frames) => Process(c, s, frames)
  }

  /** The state and the whole output after a run. */
  function Run(c: Config, s: State, evs: seq<Event>): (r: Rendered)
    requires Valid(c, s)
    ensures Valid(c, r.state)
  {
    if evs == [] then Rendered(s, [])
    else
      var before := Run(c, s, Front(evs));
      var after := Step(c, before.state, Last(evs));
      Rendered(after.state, before.out + after.out)
  }

  /** Every sample that arrived in a run, in order. */
  function Arrived(evs: seq<Event>): seq<real> {
    if evs == [] then []
    else Arrived(Front(evs)) + if Last(evs).Chunk? then ToFloats(Last(evs).samples) else []
  }
}
