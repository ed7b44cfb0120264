/**
 The G.711 mu-law codec of sip_bridge/audio_codec.py, tables 2a and 2b of ITU-T G.711.
 Bit operations are written with division and remainder by powers of two.
 */
module MuLaw {
  import opened Arith
  import opened Options
  import opened Bytes

  const BIAS: int := 0x84
  const CLIP: int := 32635

  function Pow2(e: nat): (p: int)
    ensures p >= 1
  {
    if e == 0 then 1 else 2 * Pow2(e - 1)
  }

  lemma Pow2Values()
    ensures Pow2(0) == 1 && Pow2(1) == 2 && Pow2(2) == 4 && Pow2(3) == 8 && Pow2(4) == 16 && Pow2(5) == 32
    ensures Pow2(6) == 64 && Pow2(7) == 128 && Pow2(8) == 256 && Pow2(9) == 512 && Pow2(10) == 1024
    ensures Pow2(11) == 2048 && Pow2(12) == 4096 && Pow2(13) == 8192 && Pow2(14) == 16384
  {
    assert Pow2(5) == 32;
    assert Pow2(10) == 1024;
  }

  /** The magnitude the coder works on: clipped and biased. */
  function Biased(s: int): (m: int)
    ensures 132 <= m < 32768
  {
    var a := if s < 0 then -s else s;
    (if a > CLIP then CLIP else a) + BIAS
  }

  /** The segment of a biased magnitude: segment e holds [2^(e+7), 2^(e+8)). */
  function Segment(m: int): (e: nat)
    requires 128 <= m < 32768
    ensures e <= 7
  {
    if m >= 16384 then 7 else if m >= 8192 then 6 else if m >= 4096 then 5 else if m >= 2048 then 4
    else if m >= 1024 then 3 else if m >= 512 then 2 else if m >= 256 then 1 else 0
  }

  lemma SegmentBounds(m: int)
    requires 128 <= m < 32768
    ensures Pow2(Segment(m) + 7) <= m < 2 * Pow2(Segment(m) + 7)
  {
    Pow2Values();
  }

  /** Segment and mantissa of a biased magnitude, without the sign. */
  function Code(m: int): (c: nat)
    requires 128 <= m < 32768
    ensures c < 128
  {
    16 * Segment(m) + (m / Pow2(Segment(m) + 3)) % 16
  }

  function Encode(s: int): byte {
    255 - ((if s < 0 then 128 else 0) + Code(Biased(s)))
  }

  /** The magnitude of an unsigned code. */
  function Level(c: nat): (l: nat)
    requires c < 128
    ensures l <= 32124
    ensures l == 0 <==> c == 0
  {
    MagnitudeBounds(c % 16, c / 16);
    ((c % 16) * 8 + BIAS) * Pow2(c / 16) - BIAS
  }

  /** Entry `b` of the decode table: complement, then split off the sign. */
  function Decode(b: byte): sample {
    if b < 128 then 0 - Level(127 - b) else Level(255 - b)
  }

  lemma MagnitudeBounds(mantissa: nat, e: nat)
    requires mantissa < 16 && e < 8
    ensures 0 <= (mantissa * 8 + BIAS) * Pow2(e) - BIAS <= 32124
    ensures (mantissa * 8 + BIAS) * Pow2(e) - BIAS == 0 <==> mantissa == 0 && e == 0
  {
    Pow2Values();
    if e == 0 {} else if e == 1 {} else if e == 2 {} else if e == 3 {}
    else if e == 4 {} else if e == 5 {} else if e == 6 {} else {}
  }

  /** `sample & mask` for a mask of a single bit. */
  predicate HasBit(x: nat, mask: int)
    requires mask > 0
  {
    (x / mask) % 2 == 1
  }

  /** `_linear_to_ulaw`: search the exponent from the top bit down. */
  method LinearToUlaw(sample: int) returns (b: byte)
    ensures b == Encode(sample)
  {
    var sign := 0;
    var x := sample;
    if x < 0 {
      sign := 0x80;
      x := -x;
    }
    if x > CLIP {
      x := CLIP;
    }
    x := x + BIAS;

    var exponent := 7;
    var mask := 0x4000;
    Pow2Values();
    while exponent > 0 && !HasBit(x, mask)
      invariant 0 <= exponent <= 7 && mask == Pow2(exponent + 7)
      invariant x < 2 * mask
    {
      assert mask == 2 * Pow2(exponent + 6);
      BitOfTopHalf(x, mask);
      exponent := exponent - 1;
      mask := mask / 2;
    }
    BitOfTopHalf(x, mask);
    assert exponent == Segment(x);
    var mantissa := (x / Pow2(exponent + 3)) % 16;
    b := 255 - (sign + 16 * exponent + mantissa);
  }

  lemma BitOfTopHalf(x: nat, mask: int)
    requires mask > 0 && x < 2 * mask
    ensures HasBit(x, mask) <==> x >= mask
  {
    if x >= mask {
      assert x / mask == 1;
    } else {
      assert x / mask == 0;
    }
  }

  lemma SignSplit(v: byte)
    ensures (v / 16) % 8 == (v % 128) / 16 && v % 16 == (v % 128) % 16
    ensures v % 128 == if v >= 128 then v - 128 else v
  {
  }

  /** The shift-and-mask formula of the table builder, for the complement `v` of a byte. */
  function TableSample(v: byte): (s: sample)
    ensures s == Decode(255 - v)
  {
    var exponent, mantissa := (v / 16) % 8, v % 16;
    SignSplit(v);
    MagnitudeBounds(mantissa, exponent);
    var magnitude := (mantissa * 8 + BIAS) * Pow2(exponent) - BIAS;
    if v >= 128 then -magnitude else magnitude
  }

  /** `_build_ulaw_table`: the loop that fills the decode table. */
  method BuildUlawTable() returns (table: seq<sample>)
    ensures |table| == 256 && forall j :: 0 <= j < 256 ==> table[j] == Decode(j)
  {
    table := [];
    for i := 0 to 256
      invariant |table| == i && forall j :: 0 <= j < i ==> table[j] == Decode(j)
    {
      table := table + [TableSample(255 - i)];
    }
  }

  // ---- Accuracy -----------------------------------------------------------------------------

  /** What the far end hears of a sample. */
  function Heard(s: int): sample {
    Decode(Encode(s))
  }

  /** The middle of the quantization step a value falls in. */
  function Middle(m: int, step: int): int
    requires step > 0
  {
    (m / step) * step + step / 2
  }

  function Quantized(m: int): int
    requires 128 <= m < 32768
  {
    Middle(m, Pow2(Segment(m) + 3))
  }

  lemma StepOfSegment(m: int)
    requires 128 <= m < 32768
    ensures var step := Pow2(Segment(m) + 3); step % 2 == 0 && 16 * step <= m < 32 * step
    ensures Pow2(Segment(m) + 7) == 16 * Pow2(Segment(m) + 3)
  {
    Pow2Values();
    SegmentBounds(m);
    var e := Segment(m);
    assert Pow2(e + 7) == 2 * Pow2(e + 6) == 4 * Pow2(e + 5) == 8 * Pow2(e + 4) == 16 * Pow2(e + 3);
    assert Pow2(e + 3) == 2 * Pow2(e + 2);
  }

  lemma MiddleBounds(m: int, step: int)
    requires step > 0 && step % 2 == 0 && 16 * step <= m < 32 * step
    ensures 16 <= m / step < 32
    ensures -m <= 32 * (Middle(m, step) - m) <= m
    ensures 16 * step <= Middle(m, step) < 32 * step
  {
    var q, r := m / step, m % step;
    assert m == q * step + r;
    if q < 16 {
      MulMonotone(q, 15, step);
      assert false;
    }
    if q > 31 {
      MulMonotone(32, q, step);
      assert false;
    }
    MulMonotone(16, q, step);
    MulMonotone(q, 31, step);
  }

  lemma CodeParts(m: int)
    requires 128 <= m < 32768
    ensures Code(m) / 16 == Segment(m) && Code(m) % 16 == m / Pow2(Segment(m) + 3) - 16
  {
    hide Segment, Pow2;
    StepOfSegment(m);
    MiddleBounds(m, Pow2(Segment(m) + 3));
    DigitsOf(Segment(m), m / Pow2(Segment(m) + 3));
  }

  lemma DigitsOf(e: nat, q: nat)
    requires 16 <= q < 32
    ensures var c := 16 * e + q % 16; c / 16 == e && c % 16 == q - 16
  {
    assert q % 16 == q - 16;
  }

  lemma LevelOfCode(m: int)
    requires 128 <= m < 32768
    ensures Level(Code(m)) == Quantized(m) - BIAS
  {
    CodeParts(m);
    StepValue(m / Pow2(Segment(m) + 3), Segment(m));
  }

  /** Table 2a and 2b of G.711: segment e and step m, positive from 0xFF down, negative from 0x7F down. */
  lemma DecodeTable(e: nat, m: nat)
    requires e < 8 && m < 16
    ensures var width := [8, 16, 32, 64, 128, 256, 512, 1024][e];
            && 2 * (Decode(255 - 16 * e - m) + 132) == (2 * m + 33) * width
            && Decode(127 - 16 * e - m) == -Decode(255 - 16 * e - m)
  {
    hide Level;
    LevelAt(e, m);
  }

  lemma LevelAt(e: nat, m: nat)
    requires e < 8 && m < 16
    ensures 2 * (Level(16 * e + m) + 132) == (2 * m + 33) * [8, 16, 32, 64, 128, 256, 512, 1024][e]
  {
    var c := 16 * e + m;
    assert c / 16 == e && c % 16 == m;
    assert Level(c) == (m * 8 + 132) * Pow2(e) - 132;
    hide Level;
    PowerTable(e);
    assert (m * 8 + 132) * Pow2(e) * 2 == (2 * m + 33) * (8 * Pow2(e));
  }

  lemma PowerTable(e: nat)
    requires e < 8
    ensures [8, 16, 32, 64, 128, 256, 512, 1024][e] == 8 * Pow2(e)
  {
    Pow2Values();
  }

  /** The decoded level is the middle of the cell the sample lies in; cells double from segment to segment. */
  lemma WithinCell(s: int)
    requires Abs(s) <= 32635
    ensures var a := Abs(s) + 132;
            var width := if a < 256 then 8 else if a < 512 then 16 else if a < 1024 then 32 else if a < 2048 then 64
                         else if a < 4096 then 128 else if a < 8192 then 256 else if a < 16384 then 512 else 1024;
            && -width <= 2 * (Abs(s) - Abs(Heard(s))) < width
            && (s >= 0 ==> Heard(s) >= 0) && (s <= 0 ==> Heard(s) <= 0)
  {
    var m := Biased(s);
    DecodeEncode(s);
    QuantizedRange(m);
    StepOfSegment(m);
    Pow2Values();
    MiddleWithin(m, Pow2(Segment(m) + 3));
  }

  lemma MiddleWithin(m: int, step: int)
    requires step > 0 && step % 2 == 0
    ensures -step <= 2 * (m - Middle(m, step)) < step
  {
  }

  lemma DecodeEncode(s: int)
    ensures Heard(s) == if s < 0 then BIAS - Quantized(Biased(s)) else Quantized(Biased(s)) - BIAS
  {
    LevelOfCode(Biased(s));
  }

  lemma StepValue(q: int, e: nat)
    ensures ((q - 16) * 8 + BIAS) * Pow2(e) == q * Pow2(e + 3) + Pow2(e + 3) / 2
  {
    assert Pow2(e + 3) == 2 * Pow2(e + 2) == 4 * Pow2(e + 1) == 8 * Pow2(e);
    assert (q * 8 + 4) * Pow2(e) == q * (8 * Pow2(e)) + 4 * Pow2(e);
  }

  lemma QuantizedError(m: int)
    requires 128 <= m < 32768
    ensures -m <= 32 * (Quantized(m) - m) <= m
    ensures Pow2(Segment(m) + 7) <= Quantized(m) < 2 * Pow2(Segment(m) + 7)
  {
    StepOfSegment(m);
    MiddleBounds(m, Pow2(Segment(m) + 3));
  }

  lemma QuantizedMonotone(m: int, n: int)
    requires 128 <= m <= n < 32768
    ensures Quantized(m) <= Quantized(n)
  {
    var e, f := Segment(m), Segment(n);
    if e == f {
      DivMonotone(m, n, Pow2(e + 3));
      MulMonotone(m / Pow2(e + 3), n / Pow2(e + 3), Pow2(e + 3));
    } else {
      QuantizedError(m);
      QuantizedError(n);
      Pow2Monotone(e + 8, f + 7);
    }
  }

  lemma DivMonotone(m: int, n: int, d: int)
    requires 0 <= m <= n && d > 0
    ensures m / d <= n / d
  {
    var a, b := m / d, n / d;
    assert m == a * d + m % d && n == b * d + n % d;
    if b < a {
      MulMonotone(b + 1, a, d);
      assert false;
    }
  }

  lemma {:induction false} Pow2Monotone(a: nat, b: nat)
    requires a <= b
    ensures Pow2(a) <= Pow2(b)
  {
    if a < b {
      Pow2Monotone(a, b - 1);
    }
  }

  function Abs(x: int): nat {
    if x < 0 then -x else x
  }

  /** Within the clipping range the error is at most 1/32 of the biased magnitude. */
  lemma Accuracy(s: int)
    requires Abs(s) <= CLIP
    ensures 32 * Abs(Heard(s) - s) <= Abs(s) + BIAS
  {
    DecodeEncode(s);
    QuantizedError(Biased(s));
  }

  lemma QuantizedEnds(low: int, high: int)
    requires low == 132 && high == 32767
    ensures Quantized(low) == 132 && Quantized(high) == 32256
  {
    Pow2Values();
    assert Middle(low, 8) == 132;
    assert Middle(high, 1024) == 32256;
  }

  lemma QuantizedRange(m: int)
    requires 132 <= m < 32768
    ensures BIAS <= Quantized(m) <= 32256
  {
    var low, high := 132, 32767;
    QuantizedMonotone(low, m);
    QuantizedMonotone(m, high);
    QuantizedEnds(low, high);
  }

  lemma Monotone(s: int, t: int)
    requires s <= t
    ensures Heard(s) <= Heard(t)
  {
    DecodeEncode(s);
    DecodeEncode(t);
    QuantizedRange(Biased(s));
    QuantizedRange(Biased(t));
    if s >= 0 {
      QuantizedMonotone(Biased(s), Biased(t));
    } else if t < 0 {
      QuantizedMonotone(Biased(t), Biased(s));
    }
  }

  lemma Odd(s: int)
    ensures Heard(-s) == -Heard(s)
  {
    hide Code, Level;
    if s == 0 {
      ZeroCode(Biased(s));
    }
  }

  lemma ZeroCode(m: int)
    requires m == BIAS
    ensures Code(m) == 0 && Level(0) == 0
  {
    Pow2Values();
  }

  lemma Saturates(s: int)
    ensures -32124 <= Heard(s) <= 32124
    ensures s >= CLIP ==> Heard(s) == 32124
    ensures s <= -CLIP ==> Heard(s) == -32124
  {
    TopLevel(Biased(s));
  }

  lemma TopLevel(m: int)
    requires 132 <= m < 32768
    ensures m == 32767 ==> Level(Code(m)) == 32124
  {
    if m == 32767 {
      LevelOfCode(m);
      QuantizedEnds(132, m);
    }
  }

  // ---- Byte round trip ------------------------------------------------------------------------

  /** 0x7F is negative zero; it comes back as positive zero. */
  function Canonical(b: byte): byte {
    if b == 0x7F then 0xFF else b
  }

  lemma CodeOfLevel(c: nat)
    requires c < 128
    ensures Code(Level(c) + BIAS) == c
  {
    var e, q, step := c / 16, c % 16 + 16, Pow2(c / 16 + 3);
    StepValue(q, e);
    assert step == 2 * Pow2(e + 2) && step >= 8 by { Pow2Monotone(3, e + 3); Pow2Values(); }
    MulMonotone(16, q, step);
    MulMonotone(q, 31, step);
    SegmentOfStep(Level(c) + BIAS, e);
    DivUnique(Level(c) + BIAS, q, step, step / 2);
  }

  lemma EncodeDecode(b: byte)
    ensures Encode(Decode(b)) == Canonical(b)
  {
    CodeOfLevel(if b < 128 then 127 - b else 255 - b);
    if b == 0x7F {
      CodeOfLevel(0);
    }
  }

  lemma SegmentOfStep(m: int, e: nat)
    requires e < 8 && 16 * Pow2(e + 3) <= m < 32 * Pow2(e + 3)
    ensures 128 <= m < 32768 && Segment(m) == e
  {
    Pow2Values();
  }

  lemma DivUnique(m: int, q: int, d: int, r: int)
    requires 0 <= r < d && m == q * d + r
    ensures m / d == q
  {
    var p := m / d;
    assert m == p * d + m % d;
    if p < q {
      MulMonotone(p + 1, q, d);
      assert false;
    } else if q < p {
      MulMonotone(q + 1, p, d);
      assert false;
    }
  }

  lemma Idempotent(s: int)
    ensures Heard(Heard(s)) == Heard(s)
  {
    EncodeDecode(Encode(s));
    assert Decode(0x7F) == Decode(0xFF) == 0;
  }

  function EncodeSamples(ss: seq<int>): (bs: bytes)
    ensures |bs| == |ss|
  {
    seq(|ss|, i requires 0 <= i < |ss| => Encode(ss[i]))
  }

  function DecodeBytes(bs: bytes): (ss: seq<sample>)
    ensures |ss| == |bs|
  {
    seq(|bs|, i requires 0 <= i < |bs| => Decode(bs[i]))
  }

  function UlawToPcm16(bs: bytes): bytes {
    Pack(DecodeBytes(bs))
  }

  /** `struct.unpack` refuses a buffer of odd length. */
  function Pcm16ToUlaw(pcm: bytes): Option<bytes> {
    if |pcm| % 2 == 0 then Some(EncodeSamples(Samples(pcm))) else None
  }

  method Pcm16ToUlawLoop(pcm: bytes) returns (r: Option<bytes>)
    ensures r == Pcm16ToUlaw(pcm)
    ensures r.None? <==> |pcm| % 2 == 1
    ensures r.Some? ==> |r.value| == |pcm| / 2
    ensures r.Some? ==> forall i :: 0 <= i < |r.value| ==>
              var v := (pcm[2 * i] as int) + 256 * (pcm[2 * i + 1] as int);
              r.value[i] == Encode(if v < 32768 then v else v - 65536)
  {
    var n := |pcm| / 2;
    if |pcm| != 2 * n {
      return None;
    }
    var samples := Samples(pcm);
    var result: bytes := [];
    for i := 0 to n
      invariant |result| == i && forall j :: 0 <= j < i ==> result[j] == Encode(samples[j])
    {
      var b := LinearToUlaw(samples[i]);
      result := result + [b];
    }
    assert result == EncodeSamples(samples);
    return Some(result);
  }

  /** Encoding what was decoded gives the same bytes back, but for negative zeros. */
  lemma ByteRoundTrip(bs: bytes)
    ensures var r := Pcm16ToUlaw(UlawToPcm16(bs));
            r.Some? && |r.value| == |bs| && forall i :: 0 <= i < |bs| ==> r.value[i] == Canonical(bs[i])
  {
    PackRoundTrip(DecodeBytes(bs));
    forall i | 0 <= i < |bs|
      ensures EncodeSamples(DecodeBytes(bs))[i] == Canonical(bs[i])
    {
      EncodeDecode(bs[i]);
    }
  }
}
