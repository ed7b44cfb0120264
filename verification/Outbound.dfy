/** CallSession's outbound half, updated in place, against the transitions of OutboundSpec. */
module Outbound {
  import opened Options
  import opened Bytes
  import opened OutboundSpec
  import Rtp

  class CallSession {
    const config: Config
    var outboundBuffer: bytes
    var outboundQueue: seq<bytes>
    var outboundDrops: nat
    var g711Buffer: bytes
    var sequence: nat
    var timestamp: nat
    var framesSent: nat
    var packets: seq<bytes>  // what was handed to the transport

    ghost predicate Ok()
      reads this
    {
      framesSent == |packets|
    }

    ghost function View(): Session
      reads this
    {
      Session(outboundBuffer, outboundQueue, outboundDrops, g711Buffer, sequence, timestamp, packets)
    }

    constructor (c: Config)
      ensures Ok() && config == c && View() == START
    {
      config := c;
      outboundBuffer, outboundQueue, outboundDrops := [], [], 0;
      g711Buffer, sequence, timestamp, framesSent, packets := [], 0, 0, 0, [];
    }

    method PutNowait(frame: bytes)
      requires Ok()
      modifies this`outboundQueue, this`outboundDrops
      ensures Ok() && View() == Offer(config, old(View()), frame)
    {
      if |outboundQueue| < config.queueSize {
        outboundQueue := outboundQueue + [frame];
      } else {
        outboundDrops := outboundDrops + 1;
      }
    }

    method ReceiveAudio(blob: bytes)
      requires Ok()
      modifies this`outboundBuffer, this`outboundQueue, this`outboundDrops
      ensures Ok() && View() == OutboundSpec.ReceiveAudio(config, old(View()), blob)
    {
      outboundBuffer := outboundBuffer + blob;
      while |outboundBuffer| >= PCM_FRAME
        invariant Ok() && Reframe(config, View()) == OutboundSpec.ReceiveAudio(config, old(View()), blob)
        decreases |outboundBuffer|
      {
        var frame := outboundBuffer[..PCM_FRAME];
        outboundBuffer := outboundBuffer[PCM_FRAME..];
        PutNowait(frame);
      }
    }

    /** The refill at the loop head; false when the loop goes round again at once. */
    method RefillBuffer() returns (proceed: bool)
      requires Ok()
      modifies this`outboundQueue, this`g711Buffer
      ensures Ok() && View() == Refill(config, old(View()))
      ensures !proceed ==> |g711Buffer| < RTP_FRAME
    {
      if |g711Buffer| >= RTP_FRAME {
        return true;
      }
      if outboundQueue == [] {
        return false;  // the dequeue timed out
      }
      var chunk := outboundQueue[0];
      outboundQueue := outboundQueue[1..];
      var encoded := if config.codec then EncodeFrame(chunk) else Some(chunk);
      if encoded.None? {
        assert g711Buffer + [] == g711Buffer;
        return false;
      }
      g711Buffer := g711Buffer + encoded.value;
      return true;
    }

    /** One turn of `_media_outbound_loop`; a shutdown is seen after `limit` packets. */
    method MediaTurn(limit: nat)
      requires Ok()
      modifies this`outboundQueue, this`g711Buffer, this`sequence, this`timestamp, this`framesSent, this`packets
      ensures Ok() && View() == Pump(config, old(View()), limit)
    {
      var proceed := RefillBuffer();
      if !proceed {
        return;
      }
      hide SendOne;
      var left := limit;
      while |g711Buffer| >= RTP_FRAME && left > 0
        invariant Ok() && SendUpTo(config, View(), left) == Pump(config, old(View()), limit)
        decreases left
      {
        SendPacket();
        left := left - 1;
      }
    }

    /** The body of the send loop. */
    method SendPacket()
      requires Ok() && |g711Buffer| >= RTP_FRAME
      modifies this`g711Buffer, this`sequence, this`timestamp, this`framesSent, this`packets
      ensures Ok() && View() == SendOne(config, old(View()))
    {
      hide Rtp.Serialize;
      var frame := g711Buffer[..RTP_FRAME];
      g711Buffer := g711Buffer[RTP_FRAME..];
      var marker := framesSent == 0;
      var packet := Rtp.Packet(2, Rtp.PCMU_PAYLOAD_TYPE, sequence % Rtp.TWO16, timestamp % Rtp.TWO32,
                               config.ssrc, frame, marker);
      packets := packets + [Rtp.Serialize(packet)];
      framesSent := framesSent + 1;
      sequence := sequence + 1;
      timestamp := timestamp + RTP_FRAME;
    }
  }
}
