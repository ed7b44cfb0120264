/** RTP packets (section 5.1 of RFC 3550) and the 20 ms send timer of sip_bridge/rtp.py. */
module Rtp {
  import opened Options
  import opened Bytes

  const HEADER_SIZE := 12
  const PCMU_PAYLOAD_TYPE := 0
  const TWO16 := 0x1_0000
  const TWO32 := 0x1_0000_0000

  type uint32 = x: int | 0 <= x < TWO32

  datatype Packet = Packet(
    version: int, payloadType: int, sequence: int, timestamp: int,
    ssrc: uint32, payload: bytes, marker: bool)

  /** Big-endian 16 and 32 bit fields, the `H` and `I` of the network `struct` formats. */
  function Pack16(x: int): (bs: bytes)
    requires 0 <= x < TWO16
    ensures |bs| == 2
  {
    [x / 256, x % 256]
  }

  function Unpack16(bs: bytes): (x: int)
    requires |bs| == 2
    ensures 0 <= x < TWO16
  {
    var high: int, low: int := bs[0], bs[1];
    256 * high + low
  }

  function Pack32(x: uint32): (bs: bytes)
    ensures |bs| == 4
  {
    Pack16(x / TWO16) + Pack16(x % TWO16)
  }

  function Unpack32(bs: bytes): uint32
    requires |bs| == 4
  {
    TWO16 * Unpack16(bs[..2]) + Unpack16(bs[2..])
  }

  lemma Fields32(x: uint32, bs: bytes)
    ensures Unpack32(Pack32(x)) == x
    ensures |bs| == 4 ==> Pack32(Unpack32(bs)) == bs
  {
    assert Pack32(x)[..2] == Pack16(x / TWO16) && Pack32(x)[2..] == Pack16(x % TWO16);
    if |bs| == 4 {
      assert bs == bs[..2] + bs[2..];
      Field16(bs[..2]);
      Field16(bs[2..]);
      hide Pack16, Unpack16;
      var high, low := Unpack16(bs[..2]), Unpack16(bs[2..]);
      assert (TWO16 * high + low) / TWO16 == high && (TWO16 * high + low) % TWO16 == low;
    }
  }

  lemma Field16(bs: bytes)
    requires |bs| == 2
    ensures Pack16(Unpack16(bs)) == bs
  {
  }

  function Serialize(p: Packet): bytes {
    var byte1 := p.payloadType % 128 + if p.marker then 128 else 0;
    [0x80, byte1] + Pack16(p.sequence % TWO16) + Pack32(p.timestamp % TWO32) + Pack32(p.ssrc) + p.payload
  }

  function Parse(data: bytes): Option<Packet> {
    if |data| < HEADER_SIZE then None
    else
      var version := data[0] / 64;
      if version != 2 then None
      else Some(Packet(version, data[1] % 128, Unpack16(data[2..4]), Unpack32(data[4..8]), Unpack32(data[8..12]),
                       data[12..], data[1] >= 128))
  }

  /** What survives the wire: fields reduced to their widths, version 2. */
  lemma ParseSerialize(p: Packet)
    ensures Parse(Serialize(p)) ==
            Some(p.(version := 2, payloadType := p.payloadType % 128,
                    sequence := p.sequence % TWO16, timestamp := p.timestamp % TWO32))
  {
    var d := Serialize(p);
    Fields32(p.timestamp % TWO32, []);
    Fields32(p.ssrc, []);
    assert d[2..4] == Pack16(p.sequence % TWO16);
    assert d[4..8] == Pack32(p.timestamp % TWO32);
    assert d[8..12] == Pack32(p.ssrc);
    assert d[12..] == p.payload;
  }

  /** A big-endian number. */
  function BigEndian(bs: bytes): nat {
    if bs == [] then 0 else 256 * BigEndian(bs[..|bs| - 1]) + bs[|bs| - 1]
  }

  /** Every byte of the wire, most significant first: section 5.1 of RFC 3550. */
  lemma WireLayout(p: Packet)
    ensures var d := Serialize(p);
            && |d| == 12 + |p.payload| && d[12..] == p.payload
            && d[0] == 128 && d[1] == p.payloadType % 128 + (if p.marker then 128 else 0)
            && BigEndian(d[2..4]) == p.sequence % 65536
            && BigEndian(d[4..8]) == p.timestamp % 4294967296
            && BigEndian(d[8..12]) == p.ssrc
  {
    var d := Serialize(p);
    BigEndian16(p.sequence % TWO16);
    BigEndian32(p.timestamp % TWO32);
    BigEndian32(p.ssrc);
    assert d[2..4] == Pack16(p.sequence % TWO16);
    assert d[4..8] == Pack32(p.timestamp % TWO32);
    assert d[8..12] == Pack32(p.ssrc);
    assert d[12..] == p.payload;
  }

  lemma BigEndian16(x: int)
    requires 0 <= x < TWO16
    ensures BigEndian(Pack16(x)) == x
  {
    var b := Pack16(x);
    assert b[..|b| - 1] == [b[0]];
    assert BigEndian([b[0]]) == 256 * BigEndian([]) + b[0];
  }

  lemma BigEndian32(x: uint32)
    ensures BigEndian(Pack32(x)) == x
  {
    var high, low, b := Pack16(x / TWO16), Pack16(x % TWO16), Pack32(x);
    BigEndian16(x / TWO16);
    assert b[..3][..2] == high && b[..3] == high + [low[0]];
    assert BigEndian(b) == 256 * (256 * BigEndian(high) + low[0]) + low[1];
  }

  /** Fields within their widths are packed as they are. */
  lemma SerializeInRange(p: Packet)
    requires 0 <= p.payloadType < 128 && 0 <= p.sequence < TWO16 && 0 <= p.timestamp < TWO32
    ensures Serialize(p) == [0x80, p.payloadType + if p.marker then 128 else 0]
                            + Pack16(p.sequence) + Pack32(p.timestamp) + Pack32(p.ssrc) + p.payload
  {
    hide Pack16, Pack32;
  }

  /** Padding, extension and CSRC bits of the first byte are the only ones not kept. */
  lemma SerializeParse(d: bytes)
    ensures Parse(d).Some? <==> |d| >= HEADER_SIZE && 0x80 <= d[0] < 0xC0
    ensures Parse(d).Some? ==> Serialize(Parse(d).value) == [0x80] + d[1..]
  {
    if Parse(d).Some? {
      var a, b, e, rest := d[2..4], d[4..8], d[8..12], d[12..];
      Pieces(d);
      Fields32(0, b);
      Fields32(0, e);
      Field16(a);
      hide Unpack32, Pack32, Unpack16, Pack16;
      SerializeInRange(Parse(d).value);
      hide Serialize;
      assert Serialize(Parse(d).value) == [0x80, d[1]] + a + b + e + rest;
    }
  }

  lemma Pieces(d: bytes)
    requires |d| >= HEADER_SIZE
    ensures [0x80] + d[1..] == [0x80, d[1]] + d[2..4] + d[4..8] + d[8..12] + d[12..]
  {
    assert d[1..] == [d[1]] + d[2..];
    assert d[2..] == d[2..4] + d[4..8] + d[8..12] + d[12..];
  }

  lemma KeptExactly(d: bytes)
    requires Parse(d).Some?
    ensures Serialize(Parse(d).value) == d <==> d[0] == 0x80
  {
    SerializeParse(d);
    assert d == [d[0]] + d[1..];
    assert ([0x80] + d[1..])[0] == 0x80;
  }

  // ---- Pacing -------------------------------------------------------------------------------

  const FRAME_MS := 20.0
  const MAX_LAG_MS := 100.0

  datatype Timer = Timer(start: real, frames: nat)

  function Deadline(t: Timer): real {
    t.start + t.frames as real * FRAME_MS
  }

  /** A wait: when it was due, and when it returned. */
  datatype Wait = Wait(deadline: real, woke: real)
  datatype Waited = Waited(timer: Timer, wait: Wait)

  /** Wait from `now`; a sleep returns `oversleep` after the deadline. */
  function WaitNext(t: Timer, now: real, oversleep: real): Waited {
    var due := t.(frames := t.frames + 1);
    var used := if now - Deadline(due) > MAX_LAG_MS then Timer(now, 1) else due;
    var d := Deadline(used);
    Waited(used, Wait(d, if d > now then d + oversleep else now))
  }

  class RTPTimer {
    var start: real
    var frameCount: nat

    ghost function View(): Timer
      reads this
    {
      Timer(start, frameCount)
    }

    constructor (now: real)
      ensures View() == Timer(now, 0)
    {
      start, frameCount := now, 0;
    }

    method NextDeadline() returns (d: real)
      modifies this`frameCount
      ensures View() == old(View()).(frames := old(View()).frames + 1) && d == Deadline(View())
    {
      frameCount := frameCount + 1;
      d := start + frameCount as real * FRAME_MS;
    }

    method WaitNextFrame(now: real, oversleep: real) returns (wait: Wait)
      modifies this
      ensures Waited(View(), wait) == WaitNext(old(View()), now, oversleep)
    {
      var deadline := NextDeadline();
      if now - deadline > MAX_LAG_MS {
        start := now;
        frameCount := 0;
        deadline := NextDeadline();
      }
      var woke := now;
      if deadline > now {
        woke := deadline + oversleep;
      }
      wait := Wait(deadline, woke);
    }
  }

  datatype Call = Call(now: real, oversleep: real)
  datatype Paced = Paced(timer: Timer, waits: seq<Wait>)

  /** All the waits of a sender that calls the timer at the given times. */
  function Pace(t: Timer, calls: seq<Call>): (r: Paced)
    ensures |r.waits| == |calls|
  {
    if calls == [] then Paced(t, [])
    else
      var n := |calls| - 1;
      var before := Pace(t, calls[..n]);
      var w := WaitNext(before.timer, calls[n].now, calls[n].oversleep);
      Paced(w.timer, before.waits + [w.wait])
  }

  /** Nothing is called before the previous wait returned, and no sleep returns early. */
  predicate Causal(t: Timer, calls: seq<Call>) {
    && (forall i :: 0 <= i < |calls| ==> calls[i].oversleep >= 0.0)
    && forall i :: 1 <= i < |calls| ==> calls[i].now >= Pace(t, calls[..i]).waits[i - 1].woke
  }

  lemma {:induction false} CausalPrefix(t: Timer, calls: seq<Call>, n: nat)
    requires Causal(t, calls) && n <= |calls|
    ensures Causal(t, calls[..n])
  {
    forall i | 1 <= i < n
      ensures calls[..n][i].now >= Pace(t, calls[..n][..i]).waits[i - 1].woke
    {
      assert calls[..n][..i] == calls[..i];
    }
  }

  /** The last deadline is the timer's; each deadline is at least a frame after the one before. */
  lemma {:induction false} DeadlinesSpaced(t: Timer, calls: seq<Call>)
    requires Causal(t, calls)
    ensures var p := Pace(t, calls);
            && (calls != [] ==> p.waits[|calls| - 1].deadline == Deadline(p.timer))
            && (forall i :: 0 <= i < |calls| ==> p.waits[i].woke >= p.waits[i].deadline)
            && (forall i :: 1 <= i < |calls| ==> p.waits[i].deadline >= p.waits[i - 1].deadline + FRAME_MS)
  {
    if calls != [] {
      var n := |calls| - 1;
      CausalPrefix(t, calls, n);
      DeadlinesSpaced(t, calls[..n]);
    }
  }

  /**
   The deadlines of a new timer run on 20 ms after one another, without drift, except that a call more
   than 100 ms late restarts them from itself; a call before its deadline sleeps until it.
   */
  lemma {:induction false} DeadlinesExactly(start: real, calls: seq<Call>)
    ensures var w := Pace(Timer(start, 0), calls).waits;
            forall i :: 0 <= i < |calls| ==>
              var c, next := calls[i], (if i == 0 then start else w[i - 1].deadline) + 20.0;
              && w[i].deadline == (if c.now > next + 100.0 then c.now + 20.0 else next)
              && w[i].woke == (if c.now < w[i].deadline then w[i].deadline + c.oversleep else c.now)
    ensures calls != [] ==>
              Deadline(Pace(Timer(start, 0), calls).timer) == Pace(Timer(start, 0), calls).waits[|calls| - 1].deadline
  {
    if calls != [] {
      DeadlinesExactly(start, calls[..|calls| - 1]);
    }
  }

  lemma {:induction false} DeadlinesApart(t: Timer, calls: seq<Call>, i: nat, j: nat)
    requires Causal(t, calls) && i <= j < |calls|
    ensures var w := Pace(t, calls).waits;
            w[j].deadline >= w[i].deadline + (j - i) as real * FRAME_MS
    decreases j
  {
    DeadlinesSpaced(t, calls);
    if i < j {
      DeadlinesApart(t, calls, i, j - 1);
    }
  }

  lemma {:induction false} AtMostMaxLag(t: Timer, calls: seq<Call>, i: nat)
    requires i < |calls| && forall k :: 0 <= k < |calls| ==> calls[k].oversleep == 0.0
    ensures var w := Pace(t, calls).waits; w[i].woke <= w[i].deadline + MAX_LAG_MS
  {
    var n := |calls| - 1;
    if i < n {
      AtMostMaxLag(t, calls[..n], i);
    }
  }

  /**
   When sleeps wake on time, waits `i` to `j` returning within `window` ms of each other are at most
   floor(window / 20) + 6 many, so a sender that fell behind cannot burst.
   */
  lemma BurstBound(t: Timer, calls: seq<Call>, i: nat, j: nat, window: real)
    requires Causal(t, calls) && i <= j < |calls|
    requires forall k :: 0 <= k < |calls| ==> calls[k].oversleep == 0.0
    requires var w := Pace(t, calls).waits; w[j].woke - w[i].woke <= window
    ensures j - i + 1 <= (window / FRAME_MS).Floor + 6
  {
    DeadlinesSpaced(t, calls);
    DeadlinesApart(t, calls, i, j);
    AtMostMaxLag(t, calls, i);
    assert (j - i) as real * FRAME_MS <= window + MAX_LAG_MS;
    assert (j - i - 5) as real <= window / FRAME_MS;
  }
}
