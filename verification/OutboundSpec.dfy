/**
 The outbound phone audio path as transitions on values: sip_bridge/session.py cuts the model's
 24 kHz stream into frames and queues them; the media loop encodes them (codec_bridge.py,
 audio_codec.py), cuts the code stream into 160-byte payloads and numbers the packets (rtp.py).
 */
module OutboundSpec {
  import opened Seqs
  import opened Options
  import opened Bytes
  import MuLaw
  import Rtp

  const PCM_FRAME := 960
  const RTP_FRAME := 160

  // ---- G711CodecBridge.encode_from_pcm16_24k ------------------------------------------------

  /** `samples[::3]` */
  function EveryThird(ss: seq<sample>): (r: seq<sample>)
    ensures |r| == (|ss| + 2) / 3
  {
    seq((|ss| + 2) / 3, i requires 0 <= i < (|ss| + 2) / 3 => ss[3 * i])
  }

  /** A buffer with no whole sample is empty audio; otherwise an odd length is refused. */
  function Resample24kTo8k(pcm: bytes): Option<bytes> {
    if |pcm| < 2 then Some([])
    else if |pcm| % 2 == 1 then None
    else Some(Pack(EveryThird(Samples(pcm))))
  }

  function EncodeFrame(pcm: bytes): Option<bytes> {
    match Resample24kTo8k(pcm)
    case None => None
    case Some(pcm8k) => MuLaw.Pcm16ToUlaw(pcm8k)
  }

  // ---- State and transitions ------------------------------------------------------------------

  /** Whether a codec bridge is set, the stream's SSRC, and the bound of the outbound queue. */
  datatype Config = Config(codec: bool, ssrc: Rtp.uint32, queueSize: nat)

  datatype Session = Session(
    outbound: bytes, queue: seq<bytes>, drops: nat,
    g711: bytes, sequence: nat, timestamp: nat, packets: seq<bytes>)

  const START := Session([], [], 0, [], 0, 0, [])

  /** `put_nowait`, counting what a full queue turns away. */
  function Offer(c: Config, s: Session, frame: bytes): Session {
    if |s.queue| < c.queueSize then s.(queue := s.queue + [frame]) else s.(drops := s.drops + 1)
  }

  /** Cut whole frames off the receive buffer. */
  function Reframe(c: Config, s: Session): Session
    decreases |s.outbound|
  {
    if |s.outbound| < PCM_FRAME then s
    else Reframe(c, Offer(c, s.(outbound := s.outbound[PCM_FRAME..]), s.outbound[..PCM_FRAME]))
  }

  function ReceiveAudio(c: Config, s: Session, blob: bytes): Session {
    Reframe(c, s.(outbound := s.outbound + blob))
  }

  /** The codec's output for a dequeued chunk; an encode error is logged and adds nothing. */
  function Encoded(c: Config, chunk: bytes): bytes {
    if !c.codec then chunk
    else match EncodeFrame(chunk)
      case Some(code) => code
      case None => []
  }

  /** The refill at the head of the media loop. */
  function Refill(c: Config, s: Session): Session {
    if |s.g711| < RTP_FRAME && s.queue != []
    then s.(queue := s.queue[1..], g711 := s.g711 + Encoded(c, s.queue[0]))
    else s
  }

  function NextPacket(c: Config, s: Session): Rtp.Packet
    requires |s.g711| >= RTP_FRAME
  {
    Rtp.Packet(2, Rtp.PCMU_PAYLOAD_TYPE, s.sequence % Rtp.TWO16, s.timestamp % Rtp.TWO32, c.ssrc,
               s.g711[..RTP_FRAME], |s.packets| == 0)
  }

  function SendOne(c: Config, s: Session): Session
    requires |s.g711| >= RTP_FRAME
  {
    s.(g711 := s.g711[RTP_FRAME..],
       sequence := s.sequence + 1,
       timestamp := s.timestamp + RTP_FRAME,
       packets := s.packets + [Rtp.Serialize(NextPacket(c, s))])
  }

  /** The inner loop, which a shutdown may end after `limit` packets. */
  function SendUpTo(c: Config, s: Session, limit: nat): Session
    decreases limit
  {
    if limit == 0 || |s.g711| < RTP_FRAME then s else SendUpTo(c, SendOne(c, s), limit - 1)
  }

  /** One turn of the media loop. */
  function Pump(c: Config, s: Session, limit: nat): Session {
    SendUpTo(c, Refill(c, s), limit)
  }

  datatype Event = Blob(data: bytes) | GatewayChunk(data: bytes) | MediaTurn(limit: nat)

  function Step(c: Config, s: Session, e: Event): Session {
    match e
    case Blob(data) => ReceiveAudio(c, s, data)
    case GatewayChunk(data) => Offer(c, s, data)
    case MediaTurn(limit) => Pump(c, s, limit)
  }

  function Run(c: Config, s: Session, es: seq<Event>): Session {
    if es == [] then s else Step(c, Run(c, s, Front(es)), Last(es))
  }
}
