/** The outbound audio path end to end: which bytes leave, in which packets. */
module OutboundRuns {
  import opened Seqs
  import opened Options
  import opened Bytes
  import opened OutboundSpec
  import MuLaw
  import Rtp

  // ---- Framewise encoding is whole-stream encoding ---------------------------------------------

  /** mu-law of the 3:1 decimation of a whole stream. */
  function EncodeStream(pcm: bytes): bytes {
    MuLaw.EncodeSamples(EveryThird(Samples(pcm)))
  }

  lemma EncodeFrameIsStream(pcm: bytes)
    requires |pcm| % 2 == 0
    ensures EncodeFrame(pcm) == Some(EncodeStream(pcm))
  {
    PackRoundTrip(EveryThird(Samples(pcm)));
    if |pcm| == 0 {
      assert Pack(EveryThird(Samples(pcm))) == [];
    }
  }

  lemma EveryThirdAppend(a: seq<sample>, b: seq<sample>)
    requires |a| % 3 == 0
    ensures EveryThird(a + b) == EveryThird(a) + EveryThird(b)
  {
    forall i | 0 <= i < |EveryThird(a + b)|
      ensures EveryThird(a + b)[i] == (EveryThird(a) + EveryThird(b))[i]
    {
      if i >= |a| / 3 {
        assert (a + b)[3 * i] == b[3 * (i - |a| / 3)];
      }
    }
  }

  /** 480 samples is a multiple of 3, so decimating frame by frame loses no phase. */
  lemma EncodeStreamAppend(a: bytes, b: bytes)
    requires |a| % 6 == 0
    ensures EncodeStream(a + b) == EncodeStream(a) + EncodeStream(b)
  {
    SamplesAppend(a, b);
    EveryThirdAppend(Samples(a), Samples(b));
  }

  // ---- Bookkeeping of a run ---------------------------------------------------------------------

  /** Whole frames of a buffer. */
  function Cut(b: bytes): seq<bytes> {
    if |b| < PCM_FRAME then [] else [b[..PCM_FRAME]] + Cut(b[PCM_FRAME..])
  }

  function Rest(b: bytes): (r: bytes)
    ensures |r| < PCM_FRAME
  {
    if |b| < PCM_FRAME then b else Rest(b[PCM_FRAME..])
  }

  /** A run with its history: the model's byte stream, and the chunks offered, accepted and dequeued. */
  datatype Trail = Trail(session: Session, stream: bytes, offered: seq<bytes>, accepted: seq<bytes>, taken: seq<bytes>)

  function Follow(c: Config, t: Trail, e: Event): Trail {
    var s, after := t.session, Step(c, t.session, e);
    match e
    case Blob(data) =>
      t.(session := after,
         stream := t.stream + data,
         offered := t.offered + Cut(s.outbound + data),
         accepted := t.accepted + (if |s.queue| <= |after.queue| then after.queue[|s.queue|..] else []))
    case GatewayChunk(data) =>
      t.(session := after,
         offered := t.offered + [data],
         accepted := t.accepted + (if |s.queue| <= |after.queue| then after.queue[|s.queue|..] else []))
    case MediaTurn(limit) =>
      t.(session := after,
         taken := t.taken + (if |s.g711| < RTP_FRAME && s.queue != [] then [s.queue[0]] else []))
  }

  function Trace(c: Config, es: seq<Event>): (t: Trail)
    ensures t.session == Run(c, START, es)
  {
    if es == [] then Trail(START, [], [], [], []) else Follow(c, Trace(c, Front(es)), Last(es))
  }

  // ---- Queue: nothing lost but what is counted as dropped ----------------------------------------

  predicate AllFrames(chunks: seq<bytes>) {
    forall i :: 0 <= i < |chunks| ==> |chunks[i]| == PCM_FRAME
  }

  /** A buffer is its whole frames and a remainder. */
  lemma {:induction false} CutFrames(b: bytes)
    ensures AllFrames(Cut(b)) && Concat(Cut(b)) + Rest(b) == b
  {
    if |b| >= PCM_FRAME {
      var frame, rest := b[..PCM_FRAME], b[PCM_FRAME..];
      CutFrames(rest);
      ConcatAppend([frame], Cut(rest));
      ConcatOne([], frame);
      assert frame + (Concat(Cut(rest)) + Rest(rest)) == b;
    }
  }

  /** `a` is what is left of `b` when some of it is dropped. */
  predicate Subsequence<T(==)>(a: seq<T>, b: seq<T>) {
    if b == [] then a == []
    else Subsequence(a, b[1..]) || (a != [] && a[0] == b[0] && Subsequence(a[1..], b[1..]))
  }

  lemma {:induction false} SubsequenceConcat<T>(a: seq<T>, b: seq<T>, x: seq<T>, y: seq<T>)
    requires Subsequence(a, b) && Subsequence(x, y)
    ensures Subsequence(a + x, b + y)
    decreases |b|
  {
    if b == [] {
      assert a + x == x && b + y == y;
    } else {
      assert (b + y)[1..] == b[1..] + y;
      if Subsequence(a, b[1..]) {
        SubsequenceConcat(a, b[1..], x, y);
      } else {
        SubsequenceConcat(a[1..], b[1..], x, y);
        assert (a + x)[1..] == a[1..] + x;
      }
    }
  }

  lemma NoneOrOne<T>(x: T)
    ensures Subsequence([], [x]) && Subsequence([x], [x])
  {
    assert Subsequence<T>([], []) && [x][1..] == [];
  }

  /** The queue after a receive: what was there, then frames of the buffer, all of them or with drops. */
  predicate Received(before: Session, r: Session, cut: seq<bytes>) {
    && r == before.(outbound := r.outbound, queue := r.queue, drops := r.drops)
    && before.queue <= r.queue && before.drops <= r.drops
    && Subsequence(r.queue[|before.queue|..], cut)
    && |cut| == |r.queue| - |before.queue| + (r.drops - before.drops)
    && (r.drops == before.drops ==> r.queue == before.queue + cut)
    && (AllFrames(before.queue) && AllFrames(cut) ==> AllFrames(r.queue))
  }

  lemma ReceivedOffer(c: Config, s: Session, rest: bytes, frame: bytes, r: Session, cut: seq<bytes>)
    requires Received(Offer(c, s.(outbound := rest), frame), r, cut)
    ensures Received(s, r, [frame] + cut)
  {
    var t := Offer(c, s.(outbound := rest), frame);
    assert s.queue <= t.queue;
    if AllFrames([frame] + cut) {
      assert |([frame] + cut)[0]| == PCM_FRAME;
      forall i | 0 <= i < |cut|
        ensures |cut[i]| == PCM_FRAME
      {
        assert ([frame] + cut)[i + 1] == cut[i];
      }
    }
    assert (s.queue + [frame]) + cut == s.queue + ([frame] + cut);
    var first := t.queue[|s.queue|..];
    assert first == [] || first == [frame];
    NoneOrOne(frame);
    SubsequenceConcat(first, [frame], r.queue[|t.queue|..], cut);
    assert r.queue[|s.queue|..] == first + r.queue[|t.queue|..];
  }

  lemma {:induction false} ReframeQueues(c: Config, s: Session)
    ensures Received(s, Reframe(c, s), Cut(s.outbound)) && Reframe(c, s).outbound == Rest(s.outbound)
    decreases |s.outbound|
  {
    if |s.outbound| >= PCM_FRAME {
      var frame, rest := s.outbound[..PCM_FRAME], s.outbound[PCM_FRAME..];
      var t := Offer(c, s.(outbound := rest), frame);
      ReframeQueues(c, t);
      ReceivedOffer(c, s, rest, frame, Reframe(c, t), Cut(rest));
    }
  }

  /** Reframing never fills the queue beyond its bound. */
  lemma {:induction false} ReframeWithin(c: Config, s: Session)
    requires |s.queue| <= c.queueSize
    ensures |Reframe(c, s).queue| <= c.queueSize
    decreases |s.outbound|
  {
    if |s.outbound| >= PCM_FRAME {
      ReframeWithin(c, Offer(c, s.(outbound := s.outbound[PCM_FRAME..]), s.outbound[..PCM_FRAME]));
    }
  }

  predicate QueueInv(c: Config, t: Trail) {
    && |t.session.queue| <= c.queueSize
    && t.taken + t.session.queue == t.accepted
    && Subsequence(t.accepted, t.offered)
    && |t.offered| == |t.accepted| + t.session.drops
    && (t.session.drops == 0 ==> t.accepted == t.offered)
  }

  lemma {:induction false} SendKeepsQueue(c: Config, s: Session, limit: nat)
    ensures var r := SendUpTo(c, s, limit);
            r.queue == s.queue && r.outbound == s.outbound && r.drops == s.drops
    decreases limit
  {
    if limit > 0 && |s.g711| >= RTP_FRAME {
      SendKeepsQueue(c, SendOne(c, s), limit - 1);
    }
  }

  lemma FollowKeepsQueueInv(c: Config, t: Trail, e: Event)
    requires QueueInv(c, t)
    ensures QueueInv(c, Follow(c, t, e))
  {
    hide Subsequence, Cut, Reframe, SendUpTo;
    match e
    case Blob(data) =>
      var s := t.session.(outbound := t.session.outbound + data);
      ReframeQueues(c, s);
      ReframeWithin(c, s);
      SubsequenceConcat(t.accepted, t.offered, Reframe(c, s).queue[|s.queue|..], Cut(s.outbound));
    case GatewayChunk(data) =>
      NoneOrOne(data);
      var added := Offer(c, t.session, data).queue[|t.session.queue|..];
      assert added == [] || added == [data];
      SubsequenceConcat(t.accepted, t.offered, added, [data]);
    case MediaTurn(limit) =>
      SendKeepsQueue(c, Refill(c, t.session), limit);
  }

  /**
   For every run: dequeued and queued chunks are, in order, those offered but for the dropped ones, and
   the queue stays within its bound.
   */
  lemma {:induction false} QueueConservation(c: Config, es: seq<Event>)
    ensures QueueInv(c, Trace(c, es))
  {
    if es != [] {
      QueueConservation(c, Front(es));
      FollowKeepsQueueInv(c, Trace(c, Front(es)), Last(es));
    }
  }

  // ---- Packets -----------------------------------------------------------------------------------

  function EncodedAll(c: Config, chunks: seq<bytes>): bytes {
    if chunks == [] then [] else EncodedAll(c, Front(chunks)) + Encoded(c, Last(chunks))
  }

  function Payloads(packets: seq<bytes>): bytes {
    if packets == [] then []
    else Payloads(Front(packets)) + (if |Last(packets)| >= Rtp.HEADER_SIZE then Last(packets)[Rtp.HEADER_SIZE..] else [])
  }

  /** Packet `k` parses back with its number, its time stamp, and a marker on the first only. */
  predicate NumberedPacket(c: Config, p: bytes, k: nat) {
    var r := Rtp.Parse(p);
    && r.Some?
    && |r.value.payload| == RTP_FRAME
    && r.value == Rtp.Packet(2, 0, k % Rtp.TWO16, 160 * k % Rtp.TWO32, c.ssrc, p[Rtp.HEADER_SIZE..], k == 0)
  }

  predicate PacketInv(c: Config, s: Session, code: bytes) {
    && Payloads(s.packets) + s.g711 == code
    && s.sequence == |s.packets| && s.timestamp == 160 * |s.packets|
    && forall k :: 0 <= k < |s.packets| ==> NumberedPacket(c, s.packets[k], k)
  }

  lemma NextPacketNumbered(c: Config, s: Session)
    requires |s.g711| >= RTP_FRAME && s.sequence == |s.packets| && s.timestamp == 160 * |s.packets|
    ensures var d := Rtp.Serialize(NextPacket(c, s));
            && NumberedPacket(c, d, |s.packets|)
            && |d| >= Rtp.HEADER_SIZE && d[Rtp.HEADER_SIZE..] == s.g711[..RTP_FRAME]
  {
    var p := NextPacket(c, s);
    Rtp.ParseSerialize(p);
    assert Rtp.Serialize(p)[Rtp.HEADER_SIZE..] == p.payload;
  }

  lemma PayloadsAppend(packets: seq<bytes>, d: bytes)
    requires |d| >= Rtp.HEADER_SIZE
    ensures Payloads(packets + [d]) == Payloads(packets) + d[Rtp.HEADER_SIZE..]
  {
    assert Front(packets + [d]) == packets;
  }

  lemma SendOneKeepsPacketInv(c: Config, s: Session, code: bytes)
    requires PacketInv(c, s, code) && |s.g711| >= RTP_FRAME
    ensures PacketInv(c, SendOne(c, s), code)
  {
    NextPacketNumbered(c, s);
    PayloadsAppend(s.packets, Rtp.Serialize(NextPacket(c, s)));
    assert s.g711 == s.g711[..RTP_FRAME] + s.g711[RTP_FRAME..];
  }

  lemma {:induction false} SendKeepsPacketInv(c: Config, s: Session, limit: nat, code: bytes)
    requires PacketInv(c, s, code)
    ensures PacketInv(c, SendUpTo(c, s, limit), code)
    decreases limit
  {
    if limit > 0 && |s.g711| >= RTP_FRAME {
      SendOneKeepsPacketInv(c, s, code);
      SendKeepsPacketInv(c, SendOne(c, s), limit - 1, code);
    }
  }

  /**
   For every run, with any chunk sizes and shutdown points: the payloads sent and the residual
   buffer are the encodings of the dequeued chunks, and packet k carries number k.
   */
  lemma {:induction false} PacketStream(c: Config, es: seq<Event>)
    ensures var t := Trace(c, es); PacketInv(c, t.session, EncodedAll(c, t.taken))
  {
    hide Reframe, SendUpTo, Encoded, NumberedPacket, Payloads;
    if es == [] {
      NothingSent(c);
    } else {
      PacketStream(c, Front(es));
      var t, e := Trace(c, Front(es)), Last(es);
      var code := EncodedAll(c, t.taken);
      match e
      case Blob(data) => ReframeQueues(c, t.session.(outbound := t.session.outbound + data));
      case GatewayChunk(data) =>
      case MediaTurn(limit) =>
        var s := t.session;
        var u := Refill(c, s);
        if |s.g711| < RTP_FRAME && s.queue != [] {
          var chunk := s.queue[0];
          assert Front(t.taken + [chunk]) == t.taken;
          assert Payloads(s.packets) + (s.g711 + Encoded(c, chunk)) == code + Encoded(c, chunk);
          SendKeepsPacketInv(c, u, limit, code + Encoded(c, chunk));
        } else {
          assert t.taken + [] == t.taken;
          SendKeepsPacketInv(c, u, limit, code);
        }
    }
  }

  lemma NothingSent(c: Config)
    ensures PacketInv(c, START, [])
  {
  }

  // ---- Direct mode -------------------------------------------------------------------------------

  /** Audio straight from the model, and no shutdown before the first packet of a turn. */
  predicate Direct(es: seq<Event>) {
    forall i :: 0 <= i < |es| ==> !es[i].GatewayChunk? && (es[i].MediaTurn? ==> es[i].limit >= 1)
  }

  predicate DirectInv(t: Trail) {
    && t.session.g711 == []
    && |t.session.packets| == |t.taken|
    && AllFrames(t.taken) && AllFrames(t.session.queue)
    && t.stream == Concat(t.offered) + t.session.outbound
    && |t.session.outbound| < PCM_FRAME
  }

  lemma FollowKeepsDirectInv(c: Config, t: Trail, e: Event)
    requires c.codec && DirectInv(t) && !e.GatewayChunk? && (e.MediaTurn? ==> e.limit >= 1)
    ensures DirectInv(Follow(c, t, e))
  {
    match e
    case Blob(data) => DirectBlob(c, t, data);
    case MediaTurn(limit) => DirectTurn(c, t, limit);
  }

  lemma DirectBlob(c: Config, t: Trail, data: bytes)
    requires DirectInv(t)
    ensures DirectInv(Follow(c, t, Blob(data)))
  {
    hide Reframe, Cut, Concat, Rest;
    var buffer, before := t.session.outbound + data, Concat(t.offered);
    ReframeQueues(c, t.session.(outbound := buffer));
    CutFrames(buffer);
    ConcatAppend(t.offered, Cut(buffer));
    assert (before + t.session.outbound) + data == before + buffer;
    assert before + (Concat(Cut(buffer)) + Rest(buffer)) == (before + Concat(Cut(buffer))) + Rest(buffer);
  }

  lemma DirectTurn(c: Config, t: Trail, limit: nat)
    requires c.codec && DirectInv(t) && limit >= 1
    ensures DirectInv(Follow(c, t, MediaTurn(limit)))
  {
    if t.session.queue != [] {
      var u := Refill(c, t.session);
      EncodedIsStream(c, t.session.queue[0]);
      assert |u.g711| == RTP_FRAME;
      assert SendUpTo(c, u, limit) == SendUpTo(c, SendOne(c, u), limit - 1) == SendOne(c, u);
    }
  }

  lemma EncodedIsStream(c: Config, pcm: bytes)
    requires c.codec && |pcm| % 2 == 0
    ensures Encoded(c, pcm) == EncodeStream(pcm) && |EncodeStream(pcm)| == (|pcm| / 2 + 2) / 3
  {
    EncodeFrameIsStream(pcm);
  }

  lemma {:induction false} DirectKeepsInv(c: Config, es: seq<Event>)
    requires c.codec && Direct(es)
    ensures DirectInv(Trace(c, es))
  {
    if es != [] {
      DirectKeepsInv(c, Front(es));
      FollowKeepsDirectInv(c, Trace(c, Front(es)), Last(es));
    }
  }

  lemma {:induction false} FramesLength(frames: seq<bytes>)
    requires AllFrames(frames)
    ensures |Concat(frames)| == PCM_FRAME * |frames|
    ensures |Concat(frames)| % 6 == 0
  {
    if frames != [] {
      FramesLength(Front(frames));
    }
  }

  lemma {:induction false} FramewiseIsWhole(c: Config, frames: seq<bytes>)
    requires c.codec && AllFrames(frames)
    ensures EncodedAll(c, frames) == EncodeStream(Concat(frames))
  {
    if frames == [] {
      assert EncodeStream([]) == [];
    } else {
      var before, last := Concat(Front(frames)), Last(frames);
      FramewiseIsWhole(c, Front(frames));
      FramesLength(Front(frames));
      EncodedIsStream(c, last);
      EncodeStreamAppend(before, last);
      assert Concat(frames) == before + last;
      assert EncodedAll(c, frames) == EncodeStream(before) + Encoded(c, last);
    }
  }

  /**
   For every way the stream arrives in blobs and interleaves with the media loop, while the queue
   drops nothing: one packet per whole frame taken, nothing left between turns, and the payloads are
   the mu-law of the 3:1 decimation of the stream's first |packets| frames.
   */
  lemma DirectEndToEnd(c: Config, es: seq<Event>)
    requires c.codec && Direct(es) && Run(c, START, es).drops == 0
    ensures var t := Trace(c, es);
            var s, n := t.session, PCM_FRAME * |t.session.packets|;
            && n <= |t.stream|
            && s.g711 == []
            && Payloads(s.packets) == EncodeStream(t.stream[..n])
            && |t.stream| - n == PCM_FRAME * |s.queue| + |s.outbound| && |s.outbound| < PCM_FRAME
  {
    var t := Trace(c, es);
    QueueConservation(c, es);
    PacketStream(c, es);
    DirectKeepsInv(c, es);
    FramewiseIsWhole(c, t.taken);
    StreamSplit(c, t);
    assert Payloads(t.session.packets) + [] == Payloads(t.session.packets);
  }

  /** Byte i of the stream's code: the mu-law of every third little-endian 16-bit sample. */
  lemma EncodedByte(pcm: bytes, i: nat)
    requires i < |EncodeStream(pcm)|
    ensures 6 * i + 1 < |pcm|
    ensures var v: int := (pcm[6 * i] as int) + 256 * (pcm[6 * i + 1] as int);
            EncodeStream(pcm)[i] == MuLaw.Encode(if v < 32768 then v else v - 65536)
  {
    assert EveryThird(Samples(pcm))[i] == Samples(pcm)[3 * i];
    SampleValue(pcm, 3 * i);
  }

  /** In the same runs, byte by byte: 160 payload bytes for every 960 of the stream, each from its own sample. */
  lemma DirectPayloads(c: Config, es: seq<Event>)
    requires c.codec && Direct(es) && Run(c, START, es).drops == 0
    ensures var t := Trace(c, es);
            var sent, n := Payloads(t.session.packets), |t.session.packets|;
            && |sent| == 160 * n && 960 * n <= |t.stream|
            && |t.stream| == 960 * (n + |t.session.queue|) + |t.session.outbound| && |t.session.outbound| < 960
            && forall i :: 0 <= i < 160 * n ==>
                 var v: int := (t.stream[6 * i] as int) + 256 * (t.stream[6 * i + 1] as int);
                 sent[i] == MuLaw.Encode(if v < 32768 then v else v - 65536)
  {
    hide Trace, EncodeStream, Payloads, Direct;
    DirectEndToEnd(c, es);
    var t := Trace(c, es);
    var n := |t.session.packets|;
    var pcm := t.stream[..960 * n];
    EncodedLength(pcm);
    forall i | 0 <= i < 160 * n
      ensures var v: int := (t.stream[6 * i] as int) + 256 * (t.stream[6 * i + 1] as int);
              Payloads(t.session.packets)[i] == MuLaw.Encode(if v < 32768 then v else v - 65536)
    {
      EncodedByte(pcm, i);
    }
  }

  lemma EncodedLength(pcm: bytes)
    ensures |EncodeStream(pcm)| == (|pcm| / 2 + 2) / 3
  {
  }

  /** What the media loop adds for a chunk: its bytes as they are, their code, or nothing for an odd length. */
  lemma EncodedChunk(c: Config, chunk: bytes)
    ensures !c.codec ==> Encoded(c, chunk) == chunk
    ensures c.codec && |chunk| % 2 == 0 ==> Encoded(c, chunk) == EncodeStream(chunk)
    ensures c.codec && |chunk| % 2 == 1 ==> Encoded(c, chunk) == []
  {
    if c.codec && |chunk| % 2 == 0 {
      EncodedIsStream(c, chunk);
    }
  }

  /**
   One blob: as many of its frames as there is room for are queued, in order, and the others are
   dropped; nothing is dropped while there is room.
   */
  lemma BlobExactly(c: Config, s: Session, blob: bytes)
    requires |s.queue| <= c.queueSize
    ensures var r, all := ReceiveAudio(c, s, blob), s.outbound + blob;
            var n, room := |all| / 960, c.queueSize - |s.queue|;
            var k := if n <= room then n else room;
            && |r.queue| == |s.queue| + k && r.drops == s.drops + (n - k)
            && r.queue[..|s.queue|] == s.queue
            && (forall j :: 0 <= j < k ==> r.queue[|s.queue| + j] == all[960 * j..960 * (j + 1)])
            && r.outbound == all[960 * n..]
            && r == s.(outbound := r.outbound, queue := r.queue, drops := r.drops)
  {
    ReframeExactly(c, s.(outbound := s.outbound + blob));
  }

  lemma {:induction false} ReframeExactly(c: Config, s: Session)
    requires |s.queue| <= c.queueSize
    ensures var r, n, room := Reframe(c, s), |s.outbound| / 960, c.queueSize - |s.queue|;
            var k := if n <= room then n else room;
            && |r.queue| == |s.queue| + k && r.drops == s.drops + (n - k)
            && r.queue[..|s.queue|] == s.queue
            && (forall j :: 0 <= j < k ==> r.queue[|s.queue| + j] == s.outbound[960 * j..960 * (j + 1)])
            && r.outbound == s.outbound[960 * n..]
            && r == s.(outbound := r.outbound, queue := r.queue, drops := r.drops)
    decreases |s.outbound|
  {
    if |s.outbound| >= 960 {
      var frame, rest := s.outbound[..960], s.outbound[960..];
      var t := Offer(c, s.(outbound := rest), frame);
      ReframeExactly(c, t);
      assert Reframe(c, s) == Reframe(c, t);
      hide Reframe;
      OfferedFirst(c, s, t, Reframe(c, t));
    }
  }

  /** The first frame of a buffer has been offered, the rest of it is `r`'s. */
  lemma OfferedFirst(c: Config, s: Session, t: Session, r: Session)
    requires |s.outbound| >= 960 && |s.queue| <= c.queueSize && t == Offer(c, s.(outbound := s.outbound[960..]), s.outbound[..960])
    requires var n, room := |t.outbound| / 960, c.queueSize - |t.queue|;
             var k := if n <= room then n else room;
             && |r.queue| == |t.queue| + k && r.queue[..|t.queue|] == t.queue
             && forall j :: 0 <= j < k ==> r.queue[|t.queue| + j] == t.outbound[960 * j..960 * (j + 1)]
    ensures var n, room := |s.outbound| / 960, c.queueSize - |s.queue|;
            var k := if n <= room then n else room;
            && |r.queue| == |s.queue| + k && r.queue[..|s.queue|] == s.queue
            && forall j :: 0 <= j < k ==> r.queue[|s.queue| + j] == s.outbound[960 * j..960 * (j + 1)]
  {
    assert t.queue[..|s.queue|] == s.queue;
    forall j | 0 <= j < |r.queue| - |s.queue|
      ensures r.queue[|s.queue| + j] == s.outbound[960 * j..960 * (j + 1)]
    {
      if j == 0 {
        assert r.queue[..|t.queue|][|s.queue|] == s.outbound[..960];
      } else {
        assert r.queue[|t.queue| + (j - 1)] == t.outbound[960 * (j - 1)..960 * j];
        assert t.outbound[960 * (j - 1)..960 * j] == s.outbound[960 * j..960 * (j + 1)];
      }
    }
  }

  /** One turn: a chunk is taken only when less than a payload is left, and all whole payloads up to the limit go out. */
  lemma TurnExactly(c: Config, s: Session, limit: nat)
    ensures var r, take := Pump(c, s, limit), |s.g711| < 160 && s.queue != [];
            var ready := s.g711 + if take then Encoded(c, s.queue[0]) else [];
            var k := if limit <= |ready| / 160 then limit else |ready| / 160;
            && r.queue == (if take then s.queue[1..] else s.queue)
            && |r.packets| == |s.packets| + k && r.g711 == ready[160 * k..]
            && r.outbound == s.outbound && r.drops == s.drops
  {
    hide Encoded;
    assert s.g711 + [] == s.g711;
    SendExactly(c, Refill(c, s), limit);
  }

  lemma {:induction false} SendExactly(c: Config, s: Session, limit: nat)
    ensures var r, k := SendUpTo(c, s, limit), if limit <= |s.g711| / 160 then limit else |s.g711| / 160;
            && |r.packets| == |s.packets| + k && r.g711 == s.g711[160 * k..]
            && r.queue == s.queue && r.outbound == s.outbound && r.drops == s.drops
    decreases limit
  {
    if limit > 0 && |s.g711| >= 160 {
      SendExactly(c, SendOne(c, s), limit - 1);
    }
  }

  /** The stream is the frames taken, the frames queued and the remainder. */
  lemma StreamSplit(c: Config, t: Trail)
    requires DirectInv(t) && QueueInv(c, t) && t.session.drops == 0
    ensures var n := PCM_FRAME * |t.taken|;
            && n <= |t.stream|
            && t.stream[..n] == Concat(t.taken)
            && |t.stream| - n == PCM_FRAME * |t.session.queue| + |t.session.outbound|
  {
    ConcatAppend(t.taken, t.session.queue);
    FramesLength(t.taken);
    FramesLength(t.session.queue);
  }
}
