/** The audio clock of the live host (tools/sdl_live_host.c): 68000 cycles become Z80
    cycles and sample frames with remainders carried over, and a sound command runs
    the Z80 early on borrowed time. */
module AudioClock {
  const CPU_HZ := 12_000_000
  const Z80_HZ := 4_000_000
  const CYCLES_PER_SCANLINE := 768
  const SERVICE_MICROSECONDS := 50
  const CHUNK_FRAMES := 1024
  const MAX_QUEUE_MS := 250
  const FRAME_BYTES := 4
  const U64_MAX := 0xFFFF_FFFF_FFFF_FFFF

  // ---------------------------------------------------------------- the clock as a value

  /** The counters of NgLiveAudio, and how many Z80 cycles have been run in all. */
  datatype Clock = Clock(last: nat, z80Remainder: nat, credit: nat, sampleRemainder: nat, frames: nat, z80Run: nat)

  /** live_audio_advance_z80: borrowed cycles are paid back first. */
  function AdvanceZ80(c: Clock, cycles: nat): Clock {
    if c.credit >= cycles then c.(credit := c.credit - cycles)
    else
      var total := c.z80Remainder + (cycles - c.credit);
      c.(credit := 0, z80Remainder := total % 3, z80Run := c.z80Run + total / 3)
  }

  /** live_audio_generate_and_queue */
  function Generate(c: Clock, cycles: nat, rate: nat): Clock {
    var numerator := c.sampleRemainder + cycles * rate;
    c.(sampleRemainder := numerator % CPU_HZ, frames := c.frames + numerator / CPU_HZ)
  }

  function Step(c: Clock, cycles: nat, rate: nat): Clock {
    var c1 := Generate(AdvanceZ80(c, cycles), cycles, rate);
    c1.(last := c1.last + cycles)
  }

  function NextStep(delta: nat): (step: nat)
    ensures delta > 0 ==> 0 < step <= delta
  {
    if delta > CYCLES_PER_SCANLINE then CYCLES_PER_SCANLINE else delta
  }

  /** live_audio_advance_to_cpu_cycle: scanline by scanline */
  function AdvanceTo(c: Clock, target: nat, rate: nat): (c1: Clock)
    ensures c1.last == if target <= c.last then c.last else target
    decreases if target <= c.last then 0 else target - c.last
  {
    if target <= c.last then c else AdvanceTo(Step(c, NextStep(target - c.last), rate), target, rate)
  }

  /** The Z80 cycles of the window a command opens, rounded up; it is not zero, so the
      code's fallback to one cycle never applies. */
  function ServiceCycles(): (n: nat)
    ensures n > 0
  {
    (Z80_HZ * SERVICE_MICROSECONDS + 999_999) / 1_000_000
  }

  /** live_audio_send_command: the credit saturates at UINT64_MAX. */
  function SendCommand(c: Clock): Clock {
    var lent := 3 * ServiceCycles();
    c.(z80Run := c.z80Run + ServiceCycles(), credit := if U64_MAX - c.credit < lent then U64_MAX else c.credit + lent)
  }

  datatype Event = Advance(target: nat) | Command

  function Play(c: Clock, events: seq<Event>, rate: nat): Clock
    decreases |events|
  {
    if events == [] then c
    else Play(match events[0] case Advance(target) => AdvanceTo(c, target, rate) case Command => SendCommand(c),
              events[1..], rate)
  }

  function Commands(events: seq<Event>): nat {
    if events == [] then 0 else (if events[0].Command? then 1 else 0) + Commands(events[1..])
  }

  // ---------------------------------------------------------------- conservation

  /** Z80 time run and left over is 68000 time fed and borrowed. */
  predicate Z80Balanced(c: Clock, start: int) {
    c.z80Remainder < 3 && 3 * c.z80Run + c.z80Remainder == c.last - start + c.credit
  }

  /** Frames made and left over are the 68000 time fed, at the sample rate. */
  predicate FramesBalanced(c: Clock, start: int, rate: nat) {
    c.sampleRemainder < CPU_HZ && c.frames * CPU_HZ + c.sampleRemainder == (c.last - start) * rate
  }

  lemma StepBalances(c: Clock, start: int, cycles: nat, rate: nat)
    ensures Z80Balanced(c, start) ==> Z80Balanced(Step(c, cycles, rate), start)
    ensures FramesBalanced(c, start, rate) ==> FramesBalanced(Step(c, cycles, rate), start, rate)
  {
    var numerator := c.sampleRemainder + cycles * rate;
    assert numerator == CPU_HZ * (numerator / CPU_HZ) + numerator % CPU_HZ;
    assert (c.last + cycles - start) * rate == (c.last - start) * rate + cycles * rate;
    assert (c.frames + numerator / CPU_HZ) * CPU_HZ == c.frames * CPU_HZ + CPU_HZ * (numerator / CPU_HZ);
  }

  lemma {:induction false} AdvanceBalances(c: Clock, start: int, target: nat, rate: nat)
    ensures Z80Balanced(c, start) ==> Z80Balanced(AdvanceTo(c, target, rate), start)
    ensures FramesBalanced(c, start, rate) ==> FramesBalanced(AdvanceTo(c, target, rate), start, rate)
    ensures AdvanceTo(c, target, rate).credit <= c.credit
    decreases if target <= c.last then 0 else target - c.last
  {
    hide Z80Balanced, FramesBalanced;
    if target > c.last {
      var step := NextStep(target - c.last);
      StepBalances(c, start, step, rate);
      AdvanceBalances(Step(c, step, rate), start, target, rate);
    }
  }

  /** A command keeps the Z80 balance exactly when its credit does not saturate. */
  lemma CommandBalances(c: Clock, start: int, rate: nat)
    requires Z80Balanced(c, start) && c.credit <= U64_MAX
    ensures Z80Balanced(SendCommand(c), start) <==> c.credit + 3 * ServiceCycles() <= U64_MAX
    ensures FramesBalanced(c, start, rate) ==> FramesBalanced(SendCommand(c), start, rate)
  {
    hide ServiceCycles;
  }

  /** Over every interleaving of commands and advances, while the credit of all the
      commands together cannot saturate. */
  lemma {:induction false} TimeIsConserved(c: Clock, start: int, events: seq<Event>, rate: nat)
    requires Z80Balanced(c, start) && FramesBalanced(c, start, rate)
    requires c.credit + 3 * ServiceCycles() * Commands(events) <= U64_MAX
    ensures Z80Balanced(Play(c, events, rate), start) && FramesBalanced(Play(c, events, rate), start, rate)
    decreases |events|
  {
    hide Z80Balanced, FramesBalanced, ServiceCycles, AdvanceTo;
    if events != [] {
      var rest := Commands(events[1..]);
      match events[0]
      case Advance(target) =>
        AdvanceBalances(c, start, target, rate);
        TimeIsConserved(AdvanceTo(c, target, rate), start, events[1..], rate);
      case Command =>
        assert 3 * ServiceCycles() * (1 + rest) == 3 * ServiceCycles() + 3 * ServiceCycles() * rest;
        CommandBalances(c, start, rate);
        TimeIsConserved(SendCommand(c), start, events[1..], rate);
    }
  }

  /** Frames are balanced whatever the credit does. */
  lemma {:induction false} FramesStayBalanced(c: Clock, start: int, events: seq<Event>, rate: nat)
    requires FramesBalanced(c, start, rate)
    ensures FramesBalanced(Play(c, events, rate), start, rate)
    decreases |events|
  {
    hide FramesBalanced, ServiceCycles, AdvanceTo;
    if events != [] {
      match events[0]
      case Advance(target) =>
        AdvanceBalances(c, start, target, rate);
        FramesStayBalanced(AdvanceTo(c, target, rate), start, events[1..], rate);
      case Command =>
        SameFrames(c, start, rate);
        FramesStayBalanced(SendCommand(c), start, events[1..], rate);
    }
  }

  lemma SameFrames(c: Clock, start: int, rate: nat)
    requires FramesBalanced(c, start, rate)
    ensures FramesBalanced(SendCommand(c), start, rate)
  {
    hide ServiceCycles;
  }

  /** How many frames there are depends on how far time has come, not on how it was
      cut up nor on the commands in between. */
  lemma FramesDependOnTimeOnly(c: Clock, start: int, xs: seq<Event>, ys: seq<Event>, rate: nat)
    requires FramesBalanced(c, start, rate)
    requires Play(c, xs, rate).last == Play(c, ys, rate).last
    ensures Play(c, xs, rate).frames == Play(c, ys, rate).frames
    ensures Play(c, xs, rate).sampleRemainder == Play(c, ys, rate).sampleRemainder
  {
    hide Play;
    FramesStayBalanced(c, start, xs, rate);
    FramesStayBalanced(c, start, ys, rate);
    SameQuotient(Play(c, xs, rate).frames, Play(c, xs, rate).sampleRemainder,
                 Play(c, ys, rate).frames, Play(c, ys, rate).sampleRemainder, CPU_HZ);
  }

  lemma SameQuotient(q: nat, r: nat, q1: nat, r1: nat, d: nat)
    requires q * d + r == q1 * d + r1 && r < d && r1 < d
    ensures q == q1 && r == r1
  {
    var e := q - q1;
    assert e * d == r1 - r;
    assert -1 < e < 1;
  }

  /** Once what was borrowed has been paid back, the Z80 too has run exactly as long
      as time says, however many commands came when. */
  lemma Z80DependsOnTimeOnly(c: Clock, start: int, xs: seq<Event>, ys: seq<Event>, rate: nat)
    requires Z80Balanced(c, start) && FramesBalanced(c, start, rate)
    requires c.credit + 3 * ServiceCycles() * Commands(xs) <= U64_MAX
    requires c.credit + 3 * ServiceCycles() * Commands(ys) <= U64_MAX
    requires Play(c, xs, rate).last == Play(c, ys, rate).last
    requires Play(c, xs, rate).credit == Play(c, ys, rate).credit
    ensures Play(c, xs, rate).z80Run == Play(c, ys, rate).z80Run
    ensures Play(c, xs, rate).z80Remainder == Play(c, ys, rate).z80Remainder
  {
    hide Play, Commands, ServiceCycles;
    TimeIsConserved(c, start, xs, rate);
    TimeIsConserved(c, start, ys, rate);
    SameQuotient(Play(c, xs, rate).z80Run, Play(c, xs, rate).z80Remainder,
                 Play(c, ys, rate).z80Run, Play(c, ys, rate).z80Remainder, 3);
  }

  // ---------------------------------------------------------------- the host's audio state

  /** One stereo sample. */
  datatype Frame = Frame(left: int, right: int)

  /** ng_neogeo_audio_generate: the chip's next `count` frames after the first `from`. */
  function Made(synth: nat -> Frame, from: nat, count: nat): (r: seq<Frame>)
    ensures |r| == count && forall i :: 0 <= i < count ==> r[i] == synth(from + i)
  {
    seq(count, i requires 0 <= i < count => synth(from + i))
  }

  lemma MadeInParts(synth: nat -> Frame, from: nat, count: nat)
    ensures Made(synth, 0, from + count) == Made(synth, 0, from) + Made(synth, from, count)
  {
  }

  lemma TakeMore(before: seq<Frame>, samples: seq<Frame>, consumed: nat, copy: nat)
    requires consumed + copy <= |samples|
    ensures before + samples[..consumed] + samples[consumed..consumed + copy] == before + samples[..consumed + copy]
  {
  }

  /** xs is what is left of ys when its beginning is gone. */
  ghost predicate IsLeftOf(xs: seq<Frame>, ys: seq<Frame>) {
    |xs| <= |ys| && xs == ys[|ys| - |xs|..]
  }

  lemma StillLeft(xs: seq<Frame>, n: nat, ys: seq<Frame>)
    requires IsLeftOf(xs, ys) && n <= |xs|
    ensures IsLeftOf(xs[|xs| - n..], ys)
  {
  }

  lemma NothingLeft(ys: seq<Frame>)
    ensures IsLeftOf([], ys)
  {
  }

  lemma MoreQueued(xs: seq<Frame>, ys: seq<Frame>, more: seq<Frame>)
    requires IsLeftOf(xs, ys)
    ensures IsLeftOf(xs + more, ys + more)
  {
  }

  /** NgLiveAudio.  `synth` is the frame the chip would make n-th; `queued` is every
      frame given to SDL_QueueAudio so far, and `deviceQueue` those SDL has not played:
      at most left(n) of them when its size is asked for the n-th time. */
  class LiveAudio {
    const rate: nat
    const deviceOpen: bool
    const realtimePacing: bool
    const left: nat -> nat
    const synth: nat -> Frame
    const outputBuffer: array<Frame>
    var outputBufferFrames: nat
    var lastCpuCycles: nat
    var z80CycleRemainder: nat
    var z80PreadvanceCpuCredit: nat
    var sampleRemainder: nat
    var generatedAudioFrames: nat
    ghost var z80Run: nat
    var deviceQueue: seq<Frame>
    var asks: nat
    var queueWaitMs: nat
    var queueClears: nat
    ghost var queued: seq<Frame>

    constructor (rate: nat, deviceOpen: bool, realtimePacing: bool, left: nat -> nat, synth: nat -> Frame, start: nat)
      ensures Valid() && fresh(outputBuffer)
      ensures this.rate == rate && this.deviceOpen == deviceOpen && this.synth == synth
      ensures this.realtimePacing == realtimePacing && this.left == left
      ensures Now() == Clock(start, 0, 0, 0, 0, 0)
    {
      this.rate, this.deviceOpen, this.synth := rate, deviceOpen, synth;
      this.realtimePacing, this.left := realtimePacing, left;
      deviceQueue, asks, queueWaitMs, queueClears := [], 0, 0, 0;
      outputBuffer := new Frame[CHUNK_FRAMES](_ => Frame(0, 0));
      outputBufferFrames, lastCpuCycles, z80CycleRemainder, z80PreadvanceCpuCredit := 0, start, 0, 0;
      sampleRemainder, generatedAudioFrames, z80Run, queued := 0, 0, 0, [];
    }

    ghost function Now(): Clock
      reads this
    {
      Clock(lastCpuCycles, z80CycleRemainder, z80PreadvanceCpuCredit, sampleRemainder, generatedAudioFrames, z80Run)
    }

    /** Everything the device has or is about to get. */
    ghost function Output(): seq<Frame>
      reads this`outputBufferFrames, this`queued, outputBuffer
      requires outputBufferFrames <= outputBuffer.Length
    {
      queued + outputBuffer[..outputBufferFrames]
    }

    /** The bytes that 250 milliseconds take. */
    function MaxQueue(): nat { rate * FRAME_BYTES * MAX_QUEUE_MS / 1000 }

    /** What SDL has still to play is the latest of what it was given; without pacing it
        is no more than the limit and one chunk. */
    ghost predicate QueueKept()
      reads this`deviceQueue, this`queued
    {
      && IsLeftOf(deviceQueue, queued)
      && (!realtimePacing && MaxQueue() != 0 ==>
            FRAME_BYTES * |deviceQueue| <= MaxQueue() + FRAME_BYTES * CHUNK_FRAMES)
    }

    /** The output is the chip's frames, each once and in order, or nothing when the
        device is not open. */
    ghost predicate Valid()
      reads this`outputBufferFrames, this`queued, this`deviceQueue, this`generatedAudioFrames, outputBuffer
    {
      && outputBuffer.Length == CHUNK_FRAMES && outputBufferFrames <= CHUNK_FRAMES && QueueKept()
      && Output() == if deviceOpen then Made(synth, 0, generatedAudioFrames) else []
    }

    /** SDL_GetQueuedAudioSize */
    method QueuedBytes() returns (bytes: nat)
      requires QueueKept()
      modifies this`deviceQueue, this`asks
      ensures QueueKept() && bytes == FRAME_BYTES * |deviceQueue| && |deviceQueue| <= old(|deviceQueue|)
    {
      var n := left(asks);
      asks := asks + 1;
      if n < |deviceQueue| {
        StillLeft(deviceQueue, n, queued);
        deviceQueue := deviceQueue[|deviceQueue| - n..];
      }
      bytes := FRAME_BYTES * |deviceQueue|;
    }

    /** Make room for a chunk: wait for it when pacing, and otherwise throw away what is
        queued when that is over the limit. */
    method MakeRoom(chunkBytes: nat)
      requires QueueKept()
      modifies this`deviceQueue, this`asks, this`queueWaitMs, this`queueClears
      ensures QueueKept()
      ensures !realtimePacing && MaxQueue() != 0 ==> FRAME_BYTES * |deviceQueue| <= MaxQueue()
      ensures old(queueWaitMs) <= queueWaitMs <= old(queueWaitMs) + if realtimePacing then MAX_QUEUE_MS else 0
      ensures queueClears == old(queueClears)
              || (!realtimePacing && deviceQueue == [] && queueClears == old(queueClears) + 1)
    {
      hide IsLeftOf;
      var max := MaxQueue();
      var bytes := QueuedBytes();
      if max != 0 && bytes + chunkBytes > max {
        if realtimePacing {
          var waited := 0;
          while bytes + chunkBytes > max && waited < MAX_QUEUE_MS
            invariant QueueKept() && waited <= MAX_QUEUE_MS
            invariant queueWaitMs == old(queueWaitMs) && queueClears == old(queueClears)
            decreases MAX_QUEUE_MS - waited
          {
            waited := waited + 1;
            bytes := QueuedBytes();
          }
          queueWaitMs := queueWaitMs + waited;
        }
        bytes := QueuedBytes();
        if !realtimePacing && bytes > max {
          NothingLeft(queued);
          deviceQueue, queueClears := [], queueClears + 1;
        }
      }
    }

    /** live_audio_flush_output */
    method FlushOutput()
      requires outputBuffer.Length == CHUNK_FRAMES && outputBufferFrames <= CHUNK_FRAMES && QueueKept()
      modifies this`outputBufferFrames, this`queued, this`deviceQueue, this`asks, this`queueWaitMs, this`queueClears
      ensures outputBufferFrames == (if deviceOpen then 0 else old(outputBufferFrames)) && Output() == old(Output())
      ensures QueueKept() && (realtimePacing ==> queueClears == old(queueClears))
    {
      hide IsLeftOf;
      if !deviceOpen || outputBufferFrames == 0 {
        return;
      }
      MakeRoom(FRAME_BYTES * outputBufferFrames);
      MoreQueued(deviceQueue, queued, outputBuffer[..outputBufferFrames]);
      deviceQueue := deviceQueue + outputBuffer[..outputBufferFrames];
      queued := queued + outputBuffer[..outputBufferFrames];
      outputBufferFrames := 0;
    }

    /** live_audio_record_and_buffer_samples */
    method RecordAndBuffer(samples: seq<Frame>)
      requires outputBuffer.Length == CHUNK_FRAMES && outputBufferFrames <= CHUNK_FRAMES && QueueKept()
      modifies this`outputBufferFrames, this`queued, this`generatedAudioFrames, outputBuffer,
        this`deviceQueue, this`asks, this`queueWaitMs, this`queueClears
      ensures outputBufferFrames <= CHUNK_FRAMES
      ensures QueueKept() && (realtimePacing ==> queueClears == old(queueClears))
      ensures Output() == old(Output()) + if deviceOpen then samples else []
      ensures generatedAudioFrames == old(generatedAudioFrames) + |samples|
    {
      hide QueueKept;
      generatedAudioFrames := generatedAudioFrames + |samples|;
      if !deviceOpen {
        return;
      }
      var consumed := 0;
      while consumed < |samples|
        invariant consumed <= |samples| && outputBufferFrames <= CHUNK_FRAMES
        invariant generatedAudioFrames == old(generatedAudioFrames) + |samples|
        invariant QueueKept() && (realtimePacing ==> queueClears == old(queueClears))
        invariant Output() == old(Output()) + samples[..consumed]
        decreases |samples| - consumed
      {
        var room := CHUNK_FRAMES - outputBufferFrames;
        if room == 0 {
          FlushOutput();
          room := CHUNK_FRAMES;
        }
        var copy := if |samples| - consumed > room then room else |samples| - consumed;
        TakeMore(old(Output()), samples, consumed, copy);
        Copy(samples[consumed..consumed + copy]);
        consumed := consumed + copy;
        if outputBufferFrames == CHUNK_FRAMES {
          FlushOutput();
        }
      }
      assert samples[..|samples|] == samples;
    }

    /** memcpy to the end of the buffer */
    method Copy(part: seq<Frame>)
      requires outputBuffer.Length == CHUNK_FRAMES && outputBufferFrames + |part| <= CHUNK_FRAMES
      modifies this`outputBufferFrames, outputBuffer
      ensures outputBufferFrames == old(outputBufferFrames) + |part| && Output() == old(Output()) + part
    {
      var at := outputBufferFrames;
      for i := 0 to |part|
        invariant outputBuffer[..at] == old(outputBuffer[..at])
        invariant outputBuffer[at..at + i] == part[..i]
      {
        outputBuffer[at + i] := part[i];
      }
      outputBufferFrames := at + |part|;
      assert outputBuffer[..at + |part|] == outputBuffer[..at] + outputBuffer[at..at + |part|];
    }

    method FeedZ80(cycles: nat)
      modifies this`z80CycleRemainder, this`z80PreadvanceCpuCredit, this`z80Run
      ensures Now() == AdvanceZ80(old(Now()), cycles)
    {
      if cycles == 0 {
        return;
      }
      var left := cycles;
      if z80PreadvanceCpuCredit != 0 {
        if z80PreadvanceCpuCredit >= left {
          z80PreadvanceCpuCredit := z80PreadvanceCpuCredit - left;
          return;
        }
        left := left - z80PreadvanceCpuCredit;
        z80PreadvanceCpuCredit := 0;
      }
      var total := z80CycleRemainder + left;
      z80CycleRemainder, z80Run := total % 3, z80Run + total / 3;
    }

    method GenerateAndQueue(cycles: nat)
      requires Valid()
      modifies this`outputBufferFrames, this`queued, this`generatedAudioFrames, this`sampleRemainder, outputBuffer,
        this`deviceQueue, this`asks, this`queueWaitMs, this`queueClears
      ensures Valid() && Now() == Generate(old(Now()), cycles, rate)
    {
      hide Made, QueueKept;
      var numerator := sampleRemainder + cycles * rate;
      var frames: nat := numerator / CPU_HZ;
      sampleRemainder := numerator % CPU_HZ;
      ghost var goal := generatedAudioFrames + frames;
      while frames != 0
        invariant Valid() && generatedAudioFrames + frames == goal && sampleRemainder == numerator % CPU_HZ
      {
        var chunk: nat := if frames > CHUNK_FRAMES then CHUNK_FRAMES else frames;
        MadeInParts(synth, generatedAudioFrames, chunk);
        RecordAndBuffer(Made(synth, generatedAudioFrames, chunk));
        frames := frames - chunk;
      }
    }

    method AdvanceToCpuCycle(target: nat)
      requires Valid()
      modifies this, outputBuffer
      ensures Valid() && Now() == AdvanceTo(old(Now()), target, rate)
    {
      hide Valid, Generate, AdvanceZ80;
      while lastCpuCycles < target
        invariant Valid() && AdvanceTo(Now(), target, rate) == AdvanceTo(old(Now()), target, rate)
        decreases target - lastCpuCycles
      {
        var step := NextStep(target - lastCpuCycles);
        ghost var before := Now();
        FeedZ80(step);
        GenerateAndQueue(step);
        lastCpuCycles := lastCpuCycles + step;
        assert Now() == Step(before, step, rate) by { StepKeepsLast(before, step, rate); }
      }
    }

    method WriteCommand()
      modifies this`z80Run, this`z80PreadvanceCpuCredit
      requires z80PreadvanceCpuCredit <= U64_MAX
      ensures Now() == SendCommand(old(Now())) && z80PreadvanceCpuCredit <= U64_MAX
    {
      hide ServiceCycles;
      var cycles := ServiceCycles();
      z80Run := z80Run + cycles;
      var cpuCredit := 3 * cycles;
      if U64_MAX - z80PreadvanceCpuCredit < cpuCredit {
        z80PreadvanceCpuCredit := U64_MAX;
      } else {
        z80PreadvanceCpuCredit := z80PreadvanceCpuCredit + cpuCredit;
      }
    }
  }

  lemma StepKeepsLast(c: Clock, cycles: nat, rate: nat)
    ensures AdvanceZ80(c, cycles).last == c.last && Generate(AdvanceZ80(c, cycles), cycles, rate).last == c.last
  {
  }
}
