/** PCMPlayerProcessor: the ring buffer updated in place, against the transitions of PlaybackSpec. */
module Playback {
  import opened Arith
  import opened Options
  import opened PlaybackSpec

  /** The worklet's `(i + 1) % bufferSize`. */
  function Next(i: nat, n: nat): (r: nat)
    requires i < n
    ensures r == Plus(i, 1, n)
  {
    (i + 1) % n
  }

  class Player {
    const config: Config
    const buffer: array<real>
    var readIndex: nat
    var writeIndex: nat
    var currentRebuffer: nat
    var isBuffering: bool
    var hasPlayedAudio: bool
    var underrunCount: nat
    var blocksSinceLastUnderrun: nat
    var fadeOutRemaining: nat
    var endOfAudioWriteIndex: Option<nat>

    ghost predicate Ok()
      reads this, buffer
    {
      PlaybackSpec.Valid(config, View())
    }

    ghost function View(): State
      reads this, buffer
    {
      State(buffer[..], readIndex, writeIndex,
            Gate(currentRebuffer, isBuffering, hasPlayedAudio, underrunCount, blocksSinceLastUnderrun),
            fadeOutRemaining, endOfAudioWriteIndex)
    }

    constructor (c: Config)
      requires ValidConfig(c)
      ensures Ok() && config == c && View() == Init(c) && fresh(buffer)
      ensures buffer.Length == c.capacity && readIndex == writeIndex && currentRebuffer == c.rebuffer
      ensures isBuffering && !hasPlayedAudio && fadeOutRemaining == 0 && endOfAudioWriteIndex == None
      ensures underrunCount == 0 && blocksSinceLastUnderrun == 0
    {
      config := c;
      buffer := new real[c.capacity](_ => 0.0);
      readIndex, writeIndex := 0, 0;
      currentRebuffer, isBuffering, hasPlayedAudio := c.rebuffer, true, false;
      underrunCount, blocksSinceLastUnderrun := 0, 0;
      fadeOutRemaining, endOfAudioWriteIndex := 0, None;
      new;
      assert buffer[..] == Zeros(c.capacity);
    }

    method AvailableSamples() returns (n: nat)
      requires Ok()
      ensures n == |Queue(config, View())|
    {
      if writeIndex >= readIndex {
        return writeIndex - readIndex;
      }
      return config.capacity - readIndex + writeIndex;
    }

    method Enqueue(samples: seq<int>)
      requires Ok()
      modifies this`readIndex, this`writeIndex, buffer
      ensures Ok() && View() == PlaybackSpec.Enqueue(config, old(View()), samples)
    {
      for i := 0 to |samples|
        invariant Ok() && View() == PlaybackSpec.Enqueue(config, old(View()), samples[..i])
      {
        ghost var before := View();
        buffer[writeIndex] := ToFloat(samples[i]);
        writeIndex := Next(writeIndex, config.capacity);
        if writeIndex == readIndex {
          readIndex := Next(readIndex, config.capacity);
        }
        assert View() == Push(config, before, ToFloat(samples[i]));
        assert samples[..i + 1][..i] == samples[..i];
      }
      assert samples[..|samples|] == samples;
    }

    method EndOfAudio()
      requires Ok()
      modifies this
      ensures Ok() && View() == PlaybackSpec.EndOfAudio(config, old(View()))
    {
      endOfAudioWriteIndex := Some(writeIndex);
      var n := AvailableSamples();
      if n > 0 {
        fadeOutRemaining := Min(config.fadeLength, n);
      } else {
        readIndex := endOfAudioWriteIndex.value;
        endOfAudioWriteIndex := None;
      }
      isBuffering := true;
      hasPlayedAudio := false;
      currentRebuffer := config.rebuffer;
    }

    /** Render one block. */
    method Process(output: array<real>)
      requires Ok()
      requires output != buffer
      modifies this, output
      ensures Ok() && buffer[..] == old(buffer[..])
      ensures Rendered(View(), output[..]) == PlaybackSpec.Process(config, old(View()), output.Length)
    {
      if fadeOutRemaining > 0 {
        Fade(output);
        return;
      }
      if isBuffering {
        var target := if hasPlayedAudio then currentRebuffer else config.startup;
        var n := AvailableSamples();
        if n >= target {
          isBuffering := false;
        } else {
          Silence(output);
          return;
        }
      }
      var sawUnderrun := Play(output);
      AdaptThreshold(sawUnderrun);
    }

    /** The tail of `process` after a playing block. */
    method AdaptThreshold(sawUnderrun: bool)
      requires Ok()
      modifies this`underrunCount, this`blocksSinceLastUnderrun, this`currentRebuffer
      ensures Ok() && View() == old(View()).(gate := Adapt(config, old(View()).gate, sawUnderrun))
    {
      if sawUnderrun {
        underrunCount := underrunCount + 1;
        blocksSinceLastUnderrun := 0;
        currentRebuffer := Min(config.maxRebuffer, Max(currentRebuffer, config.rebuffer) + config.growth);
      } else {
        blocksSinceLastUnderrun := blocksSinceLastUnderrun + 1;
        if blocksSinceLastUnderrun >= config.calmBlocks && currentRebuffer > config.rebuffer {
          currentRebuffer := if currentRebuffer >= config.rebuffer + config.decay
                             then currentRebuffer - config.decay else config.rebuffer;
          blocksSinceLastUnderrun := 0;
        }
      }
    }

    method Silence(output: array<real>)
      requires output != buffer
      modifies output
      ensures output[..] == Zeros(output.Length)
    {
      for i := 0 to output.Length
        invariant forall j :: 0 <= j < i ==> output[j] == 0.0
      {
        output[i] := 0.0;
      }
    }

    method Fade(output: array<real>)
      requires Ok() && fadeOutRemaining > 0
      requires output != buffer
      modifies this`readIndex, this`fadeOutRemaining, this`endOfAudioWriteIndex, output
      ensures Ok()
      ensures Rendered(View(), output[..]) == FadeBlock(config, old(View()), output.Length)
    {
      FadeFrames(output);
      if fadeOutRemaining <= 0 {
        if endOfAudioWriteIndex.Some? {
          readIndex := endOfAudioWriteIndex.value;
          endOfAudioWriteIndex := None;
        } else {
          readIndex := writeIndex;
        }
      }
    }

    /** The per-sample loop of the fade-out phase. */
    method FadeFrames(output: array<real>)
      requires Ok() && fadeOutRemaining > 0
      requires output != buffer
      modifies this`readIndex, this`fadeOutRemaining, output
      ensures Ok()
      ensures var s := old(View());
              var k := FadeTake(config, s, output.Length);
              View() == Advance(config, s, k).(fade := s.fade - k)
      ensures output[..] == FadeOut(config, old(View()), output.Length)
    {
      ghost var s := View();
      ghost var q := Queue(config, s);
      ghost var m := Min(s.fade, |q|);
      var frame := 0;
      while frame < output.Length
        invariant 0 <= frame <= output.Length
        invariant readIndex == Plus(s.read, Min(frame, m), config.capacity)
        invariant fadeOutRemaining == s.fade - Min(frame, m)
        invariant forall j :: 0 <= j < frame ==> output[j] == if j < m then Faded(config, q[j], s.fade - j) else 0.0
      {
        var sample := 0.0;
        if fadeOutRemaining > 0 && readIndex != writeIndex {
          assert frame < m;
          assert buffer[readIndex] == q[frame];
          sample := Faded(config, buffer[readIndex], fadeOutRemaining);
          readIndex := Next(readIndex, config.capacity);
          fadeOutRemaining := fadeOutRemaining - 1;
        }
        output[frame] := sample;
        frame := frame + 1;
      }
    }

    method Play(output: array<real>) returns (sawUnderrun: bool)
      requires Ok()
      requires output != buffer
      modifies this`readIndex, this`isBuffering, this`hasPlayedAudio, output
      ensures Ok()
      ensures var s := old(View());
              var k := Min(output.Length, Available(config, s));
              && sawUnderrun == (output.Length > k)
              && View() == Advance(config, s, k).(
                   gate := s.gate.(played := s.gate.played || output.Length > 0,
                                   buffering := s.gate.buffering || sawUnderrun))
              && output[..] == Queue(config, s)[..k] + Zeros(output.Length - k)
    {
      ghost var s := View();
      ghost var q := Queue(config, s);
      sawUnderrun := false;
      var frame := 0;
      while frame < output.Length
        invariant 0 <= frame <= output.Length
        invariant sawUnderrun == (frame > |q|)
        invariant readIndex == Plus(s.read, Min(frame, |q|), config.capacity)
        invariant hasPlayedAudio == (s.gate.played || frame > 0)
        invariant isBuffering == (s.gate.buffering || sawUnderrun)
        invariant forall j :: 0 <= j < frame ==> output[j] == if j < |q| then q[j] else 0.0
      {
        if readIndex != writeIndex {
          assert frame < |q|;
          assert buffer[readIndex] == q[frame];
          var sample := buffer[readIndex];
          output[frame] := sample;
          readIndex := Next(readIndex, config.capacity);
          hasPlayedAudio := true;
        } else {
          output[frame] := 0.0;
          isBuffering := true;
          hasPlayedAudio := true;
          sawUnderrun := true;
        }
        frame := frame + 1;
      }
    }
  }
}
