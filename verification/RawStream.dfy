/** The sound queue of audio.cpp: a raw stream of two buffers that swap roles when the one that is
    played has run out, and the sound generator that collects frames while it is paused. */
module RawStream {
  import opened Arith
  import opened Frames

  datatype Result = Success | AtEnd | InvalidArgs

  function Silence(n: nat): (r: seq<Frame>)
    ensures |r| == n && forall i :: 0 <= i < n ==> r[i].left == r[i].right == 0.0
  {
    seq(n, _ => SILENCE)
  }

  /** Mono samples on both channels. */
  function Panned(samples: seq<real>, gainLeft: real, gainRight: real): (r: seq<Frame>)
    ensures |r| == |samples|
    ensures forall i :: 0 <= i < |r| ==> r[i] == Frame(samples[i] * gainLeft, samples[i] * gainRight)
  {
    seq(|samples|, i requires 0 <= i < |samples| => Frame(samples[i] * gainLeft, samples[i] * gainRight))
  }

  lemma PannedMore(samples: seq<real>, gainLeft: real, gainRight: real, i: nat)
    requires i < |samples|
    ensures Panned(samples, gainLeft, gainRight)[..i + 1]
            == Panned(samples, gainLeft, gainRight)[..i] + [Frame(samples[i] * gainLeft, samples[i] * gainRight)]
  {}

  class Buffer {
    var data: seq<Frame>
    var cursor: nat

    constructor ()
      ensures data == [] && cursor == 0
    {
      data, cursor := [], 0;
    }
  }

  class Stream {
    var consumer: Buffer
    var producer: Buffer
    var stop: bool
    var paused: bool

    /** Everything pushed, and everything but silence that has been played. */
    ghost var pushed: seq<Frame>
    ghost var emitted: seq<Frame>

    /** What has been queued and not been played. */
    ghost function Queue(): seq<Frame>
      requires consumer.cursor <= |consumer.data|
      reads this, consumer, producer
    {
      consumer.data[consumer.cursor..] + producer.data
    }

    ghost predicate Valid()
      reads this, consumer, producer
    {
      && consumer != producer && consumer.cursor <= |consumer.data| && producer.cursor == 0
      && emitted + Queue() == pushed
    }

    constructor ()
      ensures Valid() && pushed == [] && emitted == [] && !paused && !stop && fresh(consumer) && fresh(producer)
    {
      consumer := new Buffer();
      producer := new Buffer();
      stop, paused := false, false;
      pushed, emitted := [], [];
    }

    /** RawStream::Pause */
    method Pause(state: bool)
      requires Valid()
      modifies this`paused
      ensures Valid() && paused == state
    {
      paused := state;
    }

    /** Stereo frames go to the end of the queue. */
    method PushSampleFrames(buffer: seq<Frame>)
      requires Valid()
      modifies this`pushed, producer
      ensures Valid() && pushed == old(pushed) + buffer && Queue() == old(Queue()) + buffer
      ensures producer == old(producer) && consumer == old(consumer)
    {
      producer.data := producer.data + buffer;
      pushed := pushed + buffer;
    }

    /** Mono samples with their gains. */
    method PushMono(buffer: seq<real>, gainLeft: real, gainRight: real)
      requires Valid()
      modifies this`pushed, producer
      ensures Valid() && pushed == old(pushed) + Panned(buffer, gainLeft, gainRight)
      ensures Queue() == old(Queue()) + Panned(buffer, gainLeft, gainRight)
      ensures producer == old(producer) && consumer == old(consumer)
    {
      ghost var before, queue, frames := producer.data, Queue(), Panned(buffer, gainLeft, gainRight);
      var i := 0;
      while i < |buffer|
        invariant 0 <= i <= |buffer| && producer.cursor == 0 && pushed == old(pushed)
        invariant producer.data == before + Panned(buffer, gainLeft, gainRight)[..i]
      {
        PannedMore(buffer, gainLeft, gainRight, i);
        producer.data := producer.data + [Frame(buffer[i] * gainLeft, buffer[i] * gainRight)];
        i := i + 1;
      }
      pushed := pushed + frames;
      assert frames[..|buffer|] == frames;
      assert Queue() == queue + frames;
      assert emitted + (queue + frames) == emitted + queue + frames;
    }

    method GetSampleFramesRemaining() returns (n: nat)
      requires Valid()
      ensures n == |Queue()|
    {
      n := (|consumer.data| - consumer.cursor) + (|producer.data| - producer.cursor);
    }

    /** The callback: the next frames of the queue, or silence when paused or when there are none;
        after the end has been signalled, nothing. */
    method OnRead(frameCount: nat) returns (result: Result, out: seq<Frame>)
      requires Valid()
      modifies this, consumer, producer
      ensures Valid() && pushed == old(pushed) && paused == old(paused) && stop == old(stop)
      ensures {consumer, producer} == old({consumer, producer})
      ensures |out| <= frameCount && (result == InvalidArgs <==> frameCount == 0)
      ensures frameCount == 0 ==> out == []
      ensures old(paused) || old(Queue()) == [] ==> emitted == old(emitted) && Queue() == old(Queue())
      ensures frameCount > 0 && (old(paused) || (old(Queue()) == [] && !stop)) ==> result == Success && out == Silence(frameCount)
      ensures frameCount > 0 && (old(paused) || (old(Queue()) == [] && !stop)) ==>
                forall i :: 0 <= i < |out| ==> out[i].left == out[i].right == 0.0
      ensures frameCount > 0 && !old(paused) && old(Queue()) == [] && stop ==> result == AtEnd && out == []
      ensures frameCount > 0 && !old(paused) && old(Queue()) != [] ==>
                && result == Success && 0 < |out| && old(Queue()) == out + Queue() && emitted == old(emitted) + out
                && (|out| < frameCount ==> consumer.cursor == |consumer.data|)
    {
      if frameCount == 0 {
        return InvalidArgs, [];
      }
      result := Success;
      if paused {
        return Success, Silence(frameCount);
      }
      var read := |consumer.data| - consumer.cursor;
      ghost var queue := Queue();
      if read == 0 {
        Flip();
        read := |consumer.data| - consumer.cursor;
      }
      read := Min(read, frameCount);
      if read != 0 {
        out := consumer.data[consumer.cursor..consumer.cursor + read];
        consumer.cursor := consumer.cursor + read;
        emitted := emitted + out;
        assert queue == out + Queue();
      } else if stop {
        return AtEnd, [];
      } else {
        out := Silence(frameCount);
      }
    }

    /** The buffer that has been used up changes places with the other one. */
    method Flip()
      requires Valid() && consumer.cursor == |consumer.data|
      modifies this`consumer, this`producer, consumer
      ensures Valid() && Queue() == old(Queue()) && {consumer, producer} == old({consumer, producer})
      ensures consumer.cursor == 0 && producer.data == []
    {
      ghost var queue := Queue();
      consumer.cursor := 0;
      consumer.data := [];
      consumer, producer := producer, consumer;
      assert Queue() == queue;
    }
  }

  /** The generator (PSG). Until playback resumes, frames are kept back in order. */
  class Generator {
    const stream: Stream
    var waveBuffer: seq<real>
    var mixCursor: nat
    var gainLeft: real
    var gainRight: real
    var paused: bool
    var pausedBuffer: seq<Frame>

    /** Everything sent for playback. */
    ghost var sent: seq<Frame>

    ghost predicate Valid()
      reads this, stream, stream.consumer, stream.producer
    {
      stream.Valid() && (!paused ==> pausedBuffer == []) && stream.pushed + pausedBuffer == sent
    }

    constructor (s: Stream)
      requires s.Valid() && s.pushed == []
      ensures Valid() && stream == s && sent == [] && !paused && waveBuffer == []
    {
      stream := s;
      waveBuffer, mixCursor, gainLeft, gainRight := [], 0, 1.0, 1.0;
      paused, pausedBuffer, sent := false, [], [];
    }

    /** No sound is lost, repeated or put in another order: what has been played, what is left in
        the stream, and what is kept back, are together what was sent. */
    lemma Conserved()
      requires Valid()
      ensures stream.emitted + stream.consumer.data[stream.consumer.cursor..] + stream.producer.data + pausedBuffer == sent
    {
      calc {
        stream.emitted + stream.consumer.data[stream.consumer.cursor..] + stream.producer.data + pausedBuffer;
      ==
        stream.emitted + stream.Queue() + pausedBuffer;
      ==
        sent;
      }
    }

    /** The stream is played: whatever it hands out was sent, and the account stays right. */
    method Play(frameCount: nat) returns (result: Result, out: seq<Frame>)
      requires Valid()
      modifies stream, stream.consumer, stream.producer
      ensures Valid() && sent == old(sent) && pausedBuffer == old(pausedBuffer) && paused == old(paused) && waveBuffer == old(waveBuffer)
      ensures |out| <= frameCount
      ensures old(stream.paused || stream.Queue() == []) ==> stream.emitted == old(stream.emitted)
      ensures frameCount > 0 && !old(stream.paused) && old(stream.Queue()) != [] ==>
                out != [] && stream.emitted == old(stream.emitted) + out && stream.emitted <= sent
    {
      result, out := stream.OnRead(frameCount);
      assert stream.emitted + stream.Queue() + pausedBuffer == stream.emitted + (stream.Queue() + pausedBuffer);
    }

    /** Samples are generated and mixed into the wave buffer; which ones is left open. */
    method Render(wave: seq<real>, cursor: nat)
      requires Valid()
      modifies this`waveBuffer, this`mixCursor
      ensures Valid() && waveBuffer == wave && mixCursor == cursor
    {
      waveBuffer, mixCursor := wave, cursor;
    }

    method Accumulate(samples: seq<real>, gainL: real, gainR: real)
      requires stream.Valid()
      modifies this`pausedBuffer
      ensures pausedBuffer == old(pausedBuffer) + Panned(samples, gainL, gainR)
    {
      ghost var before := pausedBuffer;
      var i := 0;
      while i < |samples|
        invariant 0 <= i <= |samples| && pausedBuffer == before + Panned(samples, gainL, gainR)[..i]
      {
        PannedMore(samples, gainL, gainR, i);
        pausedBuffer := pausedBuffer + [Frame(samples[i] * gainL, samples[i] * gainR)];
        i := i + 1;
      }
      assert Panned(samples, gainL, gainR)[..|samples|] == Panned(samples, gainL, gainR);
    }

    /** PushBufferForPlayback */
    method PushBufferForPlayback()
      requires Valid()
      modifies this, stream`pushed, stream.producer
      ensures Valid() && sent == old(sent) + Panned(old(waveBuffer), gainLeft, gainRight) && waveBuffer == []
      ensures paused == old(paused) && gainLeft == old(gainLeft) && gainRight == old(gainRight)
      ensures paused ==> stream.pushed == old(stream.pushed)
      ensures mixCursor == if old(waveBuffer) == [] then old(mixCursor) else 0
      ensures stream.producer == old(stream.producer) && stream.consumer == old(stream.consumer)
    {
      if |waveBuffer| != 0 {
        ghost var frames := Panned(waveBuffer, gainLeft, gainRight);
        if paused {
          Accumulate(waveBuffer, gainLeft, gainRight);
        } else {
          stream.PushMono(waveBuffer, gainLeft, gainRight);
        }
        sent := sent + frames;
        waveBuffer := [];
        mixCursor := 0;
      } else {
        assert Panned(waveBuffer, gainLeft, gainRight) == [];
      }
    }

    /** Pause(true) and Pause(false), which sends what was kept back. */
    method Pause(state: bool)
      requires Valid()
      modifies this, stream`pushed, stream.producer
      ensures Valid() && paused == state && sent == old(sent) && waveBuffer == old(waveBuffer)
      ensures !state ==> stream.pushed == sent
      ensures state ==> stream.pushed == old(stream.pushed) && pausedBuffer == old(pausedBuffer)
      ensures stream.producer == old(stream.producer) && stream.consumer == old(stream.consumer)
    {
      paused := state;
      if !paused {
        stream.PushSampleFrames(pausedBuffer);
        pausedBuffer := [];
      }
    }
  }
}
