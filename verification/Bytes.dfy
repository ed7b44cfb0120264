/** Bytes and the little-endian 16-bit sample packing of the `struct` format `<h`. */
module Bytes {
  type byte = b: int | 0 <= b < 256
  type bytes = seq<byte>
  type sample = s: int | -32768 <= s < 32768

  function SampleLow(s: sample): byte {
    s % 256
  }

  function SampleHigh(s: sample): byte {
    if s >= 0 then s / 256 else (s + 65536) / 256
  }

  function SampleOf(low: byte, high: byte): (s: sample)
    ensures SampleLow(s) == low && SampleHigh(s) == high
  {
    if high < 128 then low + 256 * high else low + 256 * high - 65536
  }

  lemma SampleRoundTrip(s: sample)
    ensures SampleOf(SampleLow(s), SampleHigh(s)) == s
  {
  }

  /** `struct.pack` of whole samples. */
  function Pack(ss: seq<sample>): (bs: bytes)
    ensures |bs| == 2 * |ss|
  {
    seq(2 * |ss|, i requires 0 <= i < 2 * |ss| =>
      if i % 2 == 0 then SampleLow(ss[i / 2]) else SampleHigh(ss[i / 2]))
  }

  /** The first |bs| / 2 samples of a buffer; a last odd byte is not looked at. */
  function Samples(bs: bytes): (ss: seq<sample>)
    ensures |ss| == |bs| / 2
  {
    seq(|bs| / 2, i requires 0 <= i < |bs| / 2 => SampleOf(bs[2 * i], bs[2 * i + 1]))
  }

  /** Little-endian two's complement. */
  lemma SampleValue(bs: bytes, i: nat)
    requires i < |Samples(bs)|
    ensures var v := (bs[2 * i] as int) + 256 * (bs[2 * i + 1] as int); Samples(bs)[i] == if v < 32768 then v else v - 65536
  {
  }

  lemma PackRoundTrip(ss: seq<sample>)
    ensures Samples(Pack(ss)) == ss
  {
    forall i | 0 <= i < |ss|
      ensures Samples(Pack(ss))[i] == ss[i]
    {
      SampleRoundTrip(ss[i]);
    }
  }

  lemma SamplesAppend(a: bytes, b: bytes)
    requires |a| % 2 == 0
    ensures Samples(a + b) == Samples(a) + Samples(b)
  {
    forall i | 0 <= i < |Samples(a + b)|
      ensures Samples(a + b)[i] == (Samples(a) + Samples(b))[i]
    {
      if i >= |a| / 2 {
        assert (a + b)[2 * i] == b[2 * (i - |a| / 2)];
      }
    }
  }
}
