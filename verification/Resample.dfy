/** 24 kHz to 16 kHz by linear interpolation (sip_bridge/codec_bridge.py); halves are exact, so integers do. */
module Resample {
  import opened Options
  import opened Bytes

  /** `int((a + b) / 2)`: truncation towards zero. */
  function Halfway(a: sample, b: sample): sample {
    if a + b >= 0 then (a + b) / 2 else -((-(a + b)) / 2)
  }

  /** Two samples out of every three: the first, and the middle of the other two. */
  function TwoOfThree(ss: seq<sample>): (r: seq<sample>)
    ensures |r| == 2 * |ss| / 3
  {
    seq(2 * |ss| / 3, i requires 0 <= i < 2 * |ss| / 3 =>
      if i % 2 == 0 then ss[3 * (i / 2)] else Halfway(ss[3 * (i / 2) + 1], ss[3 * (i / 2) + 2]))
  }

  /** `struct.unpack` refuses an odd length, unless there is no whole sample at all. */
  function Resample24kTo16k(pcm: bytes): Option<bytes> {
    if |pcm| < 2 then Some([])
    else if |pcm| % 2 == 1 then None
    else Some(Pack(TwoOfThree(Samples(pcm))))
  }

  /** The i-th output sample. */
  lemma TwoOfThreeAt(ss: seq<sample>, k: nat)
    ensures 2 * k < |TwoOfThree(ss)| ==> TwoOfThree(ss)[2 * k] == ss[3 * k]
    ensures 2 * k + 1 < |TwoOfThree(ss)| ==> TwoOfThree(ss)[2 * k + 1] == Halfway(ss[3 * k + 1], ss[3 * k + 2])
  {
    hide Halfway;
  }

  /** Half the sum of two samples, rounded towards zero. */
  lemma HalfwayExactly(a: sample, b: sample)
    ensures var sum: int, h: int := (a as int) + (b as int), Halfway(a, b);
            if sum >= 0 then 2 * h <= sum < 2 * h + 2 else 2 * h - 2 < sum <= 2 * h
  {
  }

  /**
   The body of the loop. Its fallback for a missing right neighbour is never taken and its clamp never
   changes a value: both branches are dead for every input.
   */
  method Interpolate(samples: seq<sample>, i: nat) returns (clamped: sample)
    requires i < 2 * |samples| / 3
    ensures clamped == TwoOfThree(samples)[i]
  {
    var idx, half := 3 * i / 2, i % 2 == 1;
    TwoOfThreeAt(samples, i / 2);
    assert idx == 3 * (i / 2) + i % 2;
    assert idx + 1 < |samples|;
    var val: int := if half then Halfway(samples[idx], samples[idx + 1]) else samples[idx];
    var bounded: int := if val > 32767 then 32767 else if val < -32768 then -32768 else val;
    assert bounded == val;
    clamped := bounded;
  }

  method Resample24kTo16kLoop(pcm: bytes) returns (r: Option<bytes>)
    ensures r == Resample24kTo16k(pcm)
    ensures r.None? <==> |pcm| % 2 == 1 && |pcm| > 1
    ensures r.Some? ==> |Samples(r.value)| == 2 * (|pcm| / 2) / 3 && |r.value| % 2 == 0
  {
    hide Samples, Pack, TwoOfThree;
    var n := |pcm| / 2;
    if n == 0 {
      return Some([]);
    }
    if |pcm| != 2 * n {
      return None;
    }
    var samples := Samples(pcm);
    var nOut := n * 2 / 3;
    var out: seq<sample> := [];
    for i := 0 to nOut
      invariant out == TwoOfThree(samples)[..i]
    {
      var val := Interpolate(samples, i);
      out := out + [val];
    }
    assert out == TwoOfThree(samples);
    return Some(Pack(out));
  }

  lemma TwoOfThreeAppend(a: seq<sample>, b: seq<sample>)
    requires |a| % 3 == 0
    ensures TwoOfThree(a + b) == TwoOfThree(a) + TwoOfThree(b)
  {
    hide Halfway, TwoOfThree;
    var n := |a| / 3;
    forall i | 0 <= i < |TwoOfThree(a + b)|
      ensures TwoOfThree(a + b)[i] == (TwoOfThree(a) + TwoOfThree(b))[i]
    {
      var k := i / 2;
      assert i == 2 * k || i == 2 * k + 1;
      TwoOfThreeAt(a + b, k);
      if i < 2 * n {
        TwoOfThreeAt(a, k);
      } else {
        TwoOfThreeAt(b, k - n);
      }
    }
  }

  /** Resampling frame by frame is resampling the whole, for frames of a multiple of three samples. */
  lemma FramewiseResample(a: bytes, b: bytes)
    requires |a| % 6 == 0 && |b| % 2 == 0
    ensures var x, y := Resample24kTo16k(a), Resample24kTo16k(b);
            x.Some? && y.Some? && Resample24kTo16k(a + b) == Some(x.value + y.value)
  {
    hide Resample24kTo16k, Samples, TwoOfThree, Pack;
    SixIsEven(|a|, |b|);
    WholeSamples(a);
    WholeSamples(b);
    WholeSamples(a + b);
    FramewiseSamples(a, b);
  }

  lemma SixIsEven(n: nat, m: nat)
    requires n % 6 == 0 && m % 2 == 0
    ensures n % 2 == 0 && (n + m) % 2 == 0
  {
    assert n == 2 * (3 * (n / 6)) && m == 2 * (m / 2);
  }

  lemma FramewiseSamples(a: bytes, b: bytes)
    requires |a| % 6 == 0
    ensures Pack(TwoOfThree(Samples(a + b))) == Pack(TwoOfThree(Samples(a))) + Pack(TwoOfThree(Samples(b)))
  {
    hide Samples, TwoOfThree, Pack;
    SamplesAppend(a, b);
    TwoOfThreeAppend(Samples(a), Samples(b));
    PackAppend(TwoOfThree(Samples(a)), TwoOfThree(Samples(b)));
  }

  lemma WholeSamples(pcm: bytes)
    requires |pcm| % 2 == 0
    ensures Resample24kTo16k(pcm) == Some(Pack(TwoOfThree(Samples(pcm))))
  {
    if |pcm| == 0 {
      assert Pack(TwoOfThree(Samples(pcm))) == [];
    }
  }

  lemma PackAppend(a: seq<sample>, b: seq<sample>)
    ensures Pack(a + b) == Pack(a) + Pack(b)
  {
    forall i | 0 <= i < 2 * |a + b|
      ensures Pack(a + b)[i] == (Pack(a) + Pack(b))[i]
    {
      if i >= 2 * |a| {
        assert i / 2 == |a| + (i - 2 * |a|) / 2;
      }
    }
  }
}
