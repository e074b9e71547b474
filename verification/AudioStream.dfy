/** kernel/audio.c: a stream voice - a ring filled by the program and drained from the timer interrupt. */
module AudioStream {
  import opened Numbers
  import opened Words

  const HDA_RATE := 48000
  const STREAM_RING_MS := 2000
  /** One source frame in 32.32 fixed point. */
  const ONE := 0x1_0000_0000

  type Sample = x: int | -0x8000 <= x < 0x8000
  datatype Frame = Frame(left: Sample, right: Sample)
  datatype Option<T> = None | Some(value: T)

  /** What AUDIO_U8 and AUDIO_S16 samples are. */
  predicate Fits(bits: int, sample: int) {
    if bits == 8 then 0 <= sample < 0x100 else -0x8000 <= sample < 0x8000
  }

  /** The samples of a chunk: every one in range, and enough of them for its frames. */
  predicate Chunk(bits: int, channels: int, samples: seq<int>, frames: nat) {
    (if channels == 2 then 2 * frames else frames) <= |samples| &&
    forall i :: 0 <= i < |samples| ==> Fits(bits, samples[i])
  }

  /** A frame's samples as a signed 16-bit pair: bytes are centred and scaled. */
  function Scaled(bits: int, left: int, right: int): Frame
    requires Fits(bits, left) && Fits(bits, right)
  {
    if bits == 8 then Frame((left - 128) * 0x100, (right - 128) * 0x100) else Frame(left, right)
  }

  /** One frame of the chunk: one channel is heard on both sides. */
  function FrameAt(bits: int, channels: int, samples: seq<int>, frames: nat, index: nat): Frame
    requires Chunk(bits, channels, samples, frames) && index < frames
  {
    var left := if channels == 2 then samples[2 * index] else samples[index];
    Scaled(bits, left, if channels == 2 then samples[2 * index + 1] else left)
  }

  /** What is read for it: the place of its samples is worked out in 32 bits. */
  function Convert(bits: int, channels: int, samples: seq<int>, frames: nat, index: nat): Frame
    requires Chunk(bits, channels, samples, frames) && index < frames < BASE
  {
    var left := if channels == 2 then samples[2 * index % BASE] else samples[index];
    Scaled(bits, left, if channels == 2 then samples[(2 * index + 1) % BASE] else left)
  }

  /** Chunks whose samples can all be told apart by a 32-bit place. */
  predicate Addressable(channels: int, frames: nat) {
    frames < BASE && (channels == 2 ==> frames <= 0x8000_0000)
  }

  /** Every frame of a chunk is read as it is, whatever the samples are, if and only if their places fit 32 bits. */
  lemma ConvertExact(bits: int, channels: int, frames: nat)
    requires (bits == 8 || bits == 16) && (channels == 1 || channels == 2) && frames < BASE
    ensures Addressable(channels, frames) <==>
            forall samples, index: nat :: Chunk(bits, channels, samples, frames) && index < frames ==>
              Convert(bits, channels, samples, frames, index) == FrameAt(bits, channels, samples, frames, index)
  {
    if !Addressable(channels, frames) {
      var samples := seq(2 * frames, i => if i == BASE then 1 else 0);
      var index: nat := 0x8000_0000;
      assert samples[2 * index] == 1 && samples[2 * index % BASE] == 0;
      assert Chunk(bits, channels, samples, frames);
      assert Convert(bits, channels, samples, frames, index) != FrameAt(bits, channels, samples, frames, index);
    }
  }

  /** What a frame of a chunk sounds like: two channels alternate, one is heard on both sides; 16-bit samples are
      levels as they are, and 8-bit ones are centred at 128 and counted in 256 levels. */
  predicate Plays(bits: int, channels: int, samples: seq<int>, index: nat, frame: Frame) {
    var left, right := if channels == 2 then 2 * index else index, if channels == 2 then 2 * index + 1 else index;
    right < |samples| &&
    (bits == 16 ==> frame.left == samples[left] && frame.right == samples[right]) &&
    (bits == 8 ==> frame.left == 256 * (samples[left] - 128) && frame.right == 256 * (samples[right] - 128))
  }

  /** A stretch of the song that a chunk's samples sound like, frame by frame. */
  ghost predicate Sounds(bits: int, channels: int, samples: seq<int>, frames: nat, song: seq<Frame>, from: nat) {
    from + frames <= |song| &&
    forall p :: from <= p < from + frames ==> Plays(bits, channels, samples, p - from, song[p])
  }

  /** The chunk as it is read. */
  function Frames(bits: int, channels: int, samples: seq<int>, frames: nat): (s: seq<Frame>)
    requires Chunk(bits, channels, samples, frames) && frames < BASE
    ensures |s| == frames
  {
    seq(frames, i requires 0 <= i < frames => Convert(bits, channels, samples, frames, i))
  }

  /** Chunks whose places fit 32 bits sound like their samples. */
  lemma FramesSound(bits: int, channels: int, samples: seq<int>, frames: nat, song: seq<Frame>, from: nat)
    requires (bits == 8 || bits == 16) && (channels == 1 || channels == 2) && Addressable(channels, frames)
    requires Chunk(bits, channels, samples, frames) && from + frames <= |song|
    requires song[from..from + frames] == Frames(bits, channels, samples, frames)
    ensures Sounds(bits, channels, samples, frames, song, from)
  {
    forall p | from <= p < from + frames
      ensures Plays(bits, channels, samples, p - from, song[p])
    {
      assert song[p] == song[from..from + frames][p - from];
      assert song[p] == Convert(bits, channels, samples, frames, p - from);
    }
  }

  /** The song continued by a chunk that starts after its first `taken` frames. */
  function Extend(song: seq<Frame>, taken: nat, chunk: seq<Frame>): seq<Frame>
    requires taken <= |song|
  {
    if taken + |chunk| <= |song| then song else song[..taken] + chunk
  }

  /** The source frame output frame j comes from. */
  function SourceIndex(j: nat, step: nat): nat {
    Walk(j, step) / ONE
  }

  /** The fixed-point position after j steps. */
  function Walk(j: nat, step: nat): nat {
    MulNonneg(j, step);
    j * step
  }

  lemma WalkNext(j: nat, step: nat)
    ensures Walk(j + 1, step) == Walk(j, step) + step
  {
    assert (j + 1) * step == j * step + step;
  }

  class Voice {
    const ring: array<Sample>
    const ringFrames: nat
    const step: nat
    const bits: int
    const channels: int
    var position: DWord
    var written: nat
    var read: nat
    var starved: Word
    var consumedBase: DWord
    var paused: bool
    var active: bool

    /** The song as far as it has been offered since the voice was opened or flushed, as it is read, and how many of
        its frames were reported taken. */
    ghost var song: seq<Frame>
    ghost var taken: nat
    /** Source frames skipped because a step overshot the end of a chunk. */
    ghost var lost: nat
    /** Every output frame put into the ring, and every one the mixer took out, in order. */
    ghost var produced: seq<Frame>
    ghost var heard: seq<Frame>

    /** A chunk no step from which leaves 64 bits; any chunk at all up to 48 kHz. */
    predicate Takes(frames: nat) {
      frames < BASE && frames * ONE + step <= BASE64
    }

    ghost predicate Shaped() {
      1 < ringFrames < 0x8000_0000 && ring.Length == 2 * ringFrames && (bits == 8 || bits == 16) &&
      (channels == 1 || channels == 2) &&
      0 < step <= 4 * ONE
    }

    function Slot(j: nat): (slot: nat)
      requires ringFrames > 0
      ensures slot < ringFrames
    {
      j % ringFrames
    }

    /** The ring is a queue: what is between the two counters is what was produced and not yet heard. */
    ghost predicate Queue()
      reads `read, `written, `produced, `heard, ring
    {
      Shaped() && read <= written < read + ringFrames && |produced| == written && heard == produced[..read] &&
      forall j :: read <= j < written ==> Frame(ring[2 * Slot(j)], ring[2 * Slot(j) + 1]) == produced[j]
    }

    /** The resampler: output frame j is the song's frame floor(j * step / 2^32), for as long as nothing was lost. */
    ghost predicate Resampled()
      reads `written, `produced, `song, `lost
    {
      |produced| == written &&
      (lost == 0 ==>
         forall j :: 0 <= j < written ==> SourceIndex(j, step) < |song| && produced[j] == song[SourceIndex(j, step)])
    }

    ghost predicate Valid()
      reads this, ring
    {
      Queue() && Resampled() && position < ONE && taken <= |song| &&
      Walk(written, step) == (taken + lost) * ONE + position
    }

    /** audio_stream_open's part in building the voice. */
    constructor (rate: int, bits: int, channels: int)
      requires 0 < rate <= 192000 && (bits == 8 || bits == 16) && (channels == 1 || channels == 2)
      ensures Valid() && fresh(ring) && this.bits == bits && this.channels == channels && step == rate * ONE / HDA_RATE
      ensures song == [] && taken == 0 && lost == 0 && heard == [] && active && !paused
      ensures ringFrames == 96000 && read == written == 0 && starved == 0 && consumedBase == 0
    {
      StepRange(rate);
      ringFrames := HDA_RATE * STREAM_RING_MS / 1000;
      ring := new Sample[2 * (HDA_RATE * STREAM_RING_MS / 1000)](_ => 0);
      step := rate * ONE / HDA_RATE;
      this.bits, this.channels := bits, channels;
      position, written, read, starved, consumedBase := 0, 0, 0, 0, 0;
      paused, active := false, true;
      song, taken, lost, produced, heard := [], 0, 0, [], [];
    }

    /** The stream branch of mix_frame: one frame out, silence when nothing waits or the voice is paused. */
    method Mix() returns (out: Option<Frame>)
      requires Queue()
      modifies this`read, this`starved, this`heard
      ensures Queue()
      ensures out == if active && !paused && old(read) < written then Some(produced[old(read)]) else None
      ensures heard == old(heard) + (match out case Some(f) => [f] case None => [])
      ensures read == old(read) + if out.Some? then 1 else 0
      ensures starved ==
              if active && !paused && out.None? then (old(starved) as int + 1) % 0x1_0000_0000 else old(starved)
    {
      if !active || paused {
        return None;
      }
      if read >= written {
        starved := (starved as int + 1) % BASE;
        return None;
      }
      var at := Slot(read);
      out := Some(Frame(ring[2 * at], ring[2 * at + 1]));
      read := read + 1;
      heard := heard + [out.value];
      assert produced[..read] == produced[..read - 1] + [produced[read - 1]];
    }

    /** Some number of timer ticks in a row. */
    method Interrupt(ticks: nat)
      requires Queue()
      modifies this`read, this`starved, this`heard
      ensures Queue() && read >= old(read) && old(heard) <= heard
    {
      for i := 0 to ticks
        invariant Queue() && read >= old(read) && old(heard) <= heard
      {
        var _ := Mix();
      }
    }

    /** A slot outside the waiting part of the ring is a different slot. */
    lemma SlotsApart(j: nat)
      requires Shaped() && j < written < j + ringFrames
      ensures Slot(j) != Slot(written)
    {
      if Slot(j) == Slot(written) {
        ResidueCongruent(written, j, ringFrames);
        var k := CongruentWitness(written, j, ringFrames);
        MulAway(ringFrames, k);
      }
    }

    /** Writing the slot at `written` while it is not yet published disturbs nothing the mixer may read. */
    method WriteSide(side: nat, value: Sample)
      requires Queue() && side < 2
      modifies ring
      ensures Queue() && ring[2 * Slot(written) + side] == value
      ensures forall i :: 0 <= i < ring.Length && i != 2 * Slot(written) + side ==> ring[i] == old(ring[i])
    {
      forall j | read <= j < written
        ensures Slot(j) != Slot(written)
      {
        SlotsApart(j);
      }
      ring[2 * Slot(written) + side] := value;
    }

    /** Publishing the slot: the frame joins the queue. */
    method Publish(ghost frame: Frame)
      requires Queue() && Resampled() && written + 1 < read + ringFrames
      requires Frame(ring[2 * Slot(written)], ring[2 * Slot(written) + 1]) == frame
      requires lost == 0 ==> SourceIndex(written, step) < |song| && frame == song[SourceIndex(written, step)]
      modifies this`written, this`produced
      ensures Queue() && Resampled() && written == old(written) + 1 && produced == old(produced) + [frame]
    {
      hide SourceIndex;
      written := written + 1;
      produced := produced + [frame];
      assert heard == produced[..read];
    }

    /** The caller re-offers what was not taken: the chunk agrees with the song from the first frame not taken on. */
    ghost predicate Continues(chunk: seq<Frame>)
      reads this
    {
      taken <= |song| && forall i :: 0 <= i < |chunk| && taken + i < |song| ==> song[taken + i] == chunk[i]
    }

    /** Between the steps of one call: as Valid, with a position that may have walked past the start of the chunk. */
    ghost predicate Walking()
      reads `read, `written, `produced, `heard, `song, `lost, `taken, `position, ring
    {
      Queue() && Resampled() && taken <= |song| && Walk(written, step) == (taken + lost) * ONE + position
    }

    lemma QueueBounds()
      requires Queue()
      ensures Shaped() && read <= written < read + ringFrames && 1 < ringFrames < 0x8000_0000 && 0 < step <= 4 * ONE
    {
    }

    /** Both sides written, then published. The timer may tick between any two of these. */
    method Put(frame: Frame, ticks: (nat, nat) -> nat, round: nat)
      requires Queue() && Resampled() && written + 1 < read + ringFrames
      requires lost == 0 ==> SourceIndex(written, step) < |song| && frame == song[SourceIndex(written, step)]
      modifies this`read, this`starved, this`heard, this`written, this`produced, ring
      ensures Queue() && Resampled() && written == old(written) + 1 && old(heard) <= heard && read >= old(read)
    {
      hide SourceIndex, Voice.Resampled, Voice.Queue, Voice.Slot;
      QueueBounds();
      Interrupt(ticks(round, 1));
      WriteSide(0, frame.left);
      Interrupt(ticks(round, 2));
      WriteSide(1, frame.right);
      Interrupt(ticks(round, 3));
      Publish(frame);
    }

    /** What is read is the song's frame at the place the next output frame comes from. */
    lemma FrameRead(samples: seq<int>, frames: nat)
      requires Walking() && Chunk(bits, channels, samples, frames) && Takes(frames) && position / ONE < frames
      requires taken + frames <= |song| && song[taken..taken + frames] == Frames(bits, channels, samples, frames)
      requires lost == 0
      ensures SourceIndex(written, step) < |song| &&
              Convert(bits, channels, samples, frames, position / ONE) == song[SourceIndex(written, step)]
    {
      hide Chunk, SourceIndex, Walk, Voice.Resampled, Voice.Queue;
      QueueBounds();
      var index := position / ONE;
      NextSource(written, step, taken + lost, position);
      assert song[taken..taken + frames][index] == song[taken + index];
      assert Frames(bits, channels, samples, frames)[index] == song[taken + index];
    }

    /** One output frame: read its source frame, step, put it into the ring. */
    method OneFrame(samples: seq<int>, frames: nat, ticks: (nat, nat) -> nat, round: nat)
      requires Walking() && Chunk(bits, channels, samples, frames) && Takes(frames)
      requires position / ONE < frames && written + 1 < read + ringFrames
      requires taken + frames <= |song| && song[taken..taken + frames] == Frames(bits, channels, samples, frames)
      modifies this`read, this`starved, this`heard, this`written, this`produced, this`position, ring
      ensures Walking() && written == old(written) + 1 && position == old(position) + step && old(heard) <= heard &&
              read >= old(read)
    {
      hide Convert, Chunk, Fits, SourceIndex, Walk, Voice.Resampled, Voice.Queue, Voice.Slot, Frames;
      QueueBounds();
      if lost == 0 {
        FrameRead(samples, frames);
      }
      WalkNext(written, step);
      var frame := Convert(bits, channels, samples, frames, position / ONE);
      position := position + step;
      Put(frame, ticks, round);
    }

    /** The loop of audio_stream_queue: output frames until the chunk is used up or the ring is full. */
    method Fill(samples: seq<int>, frames: nat, ticks: (nat, nat) -> nat) returns (count: nat, ghost tested: nat)
      requires Walking() && position < ONE && Chunk(bits, channels, samples, frames) && 0 < frames && Takes(frames)
      requires taken + frames <= |song| && song[taken..taken + frames] == Frames(bits, channels, samples, frames)
      modifies this`read, this`starved, this`heard, this`written, this`produced, this`position, ring
      ensures Walking() && count == position / ONE && position < frames * ONE + step && old(heard) <= heard
      ensures old(written) <= written && position == old(position) + Walk(written - old(written), step)
      ensures tested <= read && (count < frames ==> written - tested == ringFrames - 1)
    {
      hide Chunk, Frames, SourceIndex, Voice.Resampled, Walk, Voice.Slot, Voice.Queue, Voice.Shaped;
      QueueBounds();
      WalkNone(step);
      count, tested := 0, read;
      ghost var w0, start := written, position;
      while count < frames
        invariant Walking() && count == position / ONE && w0 <= written
        invariant position == start + Walk(written - w0, step) && position < frames * ONE + step
        invariant old(heard) <= heard && tested <= read
        decreases frames * ONE - position
      {
        Interrupt(ticks(written, 0));
        QueueBounds();
        tested := read;
        var waiting := (written - read) % BASE;
        if waiting + 1 >= ringFrames {
          break;
        }
        WalkNext(written - w0, step);
        OneFrame(samples, frames, ticks, written);
        count := position / ONE % BASE;
      }
      Interrupt(ticks(written, 4));
    }

    /** The song goes on with the chunk, which changes nothing that was produced from it. */
    ghost method SingOn(chunk: seq<Frame>)
      requires Resampled() && Continues(chunk)
      modifies this`song
      ensures Resampled() && song == Extend(old(song), taken, chunk)
      ensures taken + |chunk| <= |song| && song[taken..taken + |chunk|] == chunk
    {
      hide SourceIndex;
      KeepsPrefix(song, taken, chunk);
      song := Extend(song, taken, chunk);
    }

    ghost method Lose(more: nat)
      requires Resampled()
      modifies this`lost
      ensures Resampled() && lost == old(lost) + more
    {
      hide SourceIndex;
      lost := lost + more;
    }

    /** The chunk walked as far as the ring allows, and what has been walked past dropped from it. */
    method Take(samples: seq<int>, frames: nat, ticks: (nat, nat) -> nat) returns (count: nat, ghost tested: nat)
      requires Walking() && position < ONE && Chunk(bits, channels, samples, frames) && 0 < frames && Takes(frames)
      requires taken + frames <= |song| && song[taken..taken + frames] == Frames(bits, channels, samples, frames)
      modifies this`read, this`starved, this`heard, this`written, this`produced, this`position, ring
      modifies this`taken, this`lost
      ensures Walking() && position < ONE && count <= frames && taken == old(taken) + count && old(heard) <= heard
      ensures old(written) <= written
      ensures Offered(step, frames, old(position), old(lost), written - old(written), count, position, lost)
      ensures step <= ONE ==> lost == old(lost)
      ensures tested <= read && (count < frames ==> written - tested == ringFrames - 1)
    {
      hide Chunk, Frames, SourceIndex, Walk, Voice.Queue, Voice.Resampled, Offered, Overshoot, Voice.Shaped,
           Voice.Takes;
      count, tested := Fill(samples, frames, ticks);
      EndOfChunk(step, frames, old(position), lost, written - old(written), position);
      CarriedOver(Walk(written, step), taken, lost, position, frames);
      ghost var overshoot := Overshoot(position, frames);
      position := position % ONE;
      if count > frames {
        count := frames;
      }
      taken := taken + count;
      Lose(overshoot);
    }

    /** audio_stream_queue: take what fits. The answer, a signed number, is how many source frames the caller may
        drop; fewer than were offered means that the ring was full when it was last looked at. */
    method Offer(samples: seq<int>, frames: nat, ticks: (nat, nat) -> nat) returns (answer: int, ghost used: nat,
                 ghost tested: nat)
      requires Valid() && Chunk(bits, channels, samples, frames) && Takes(frames)
      requires Continues(Frames(bits, channels, samples, frames))
      modifies this`read, this`starved, this`heard, this`written, this`produced, this`position, ring
      modifies this`song, this`taken, this`lost
      ensures Valid() && used <= frames && taken == old(taken) + used && old(heard) <= heard
      ensures answer == if used < 0x8000_0000 then used else used - BASE
      ensures song == Extend(old(song), old(taken), Frames(bits, channels, samples, frames))
      ensures Addressable(channels, frames) ==> Sounds(bits, channels, samples, frames, song, old(taken))
      ensures old(written) <= written
      ensures Offered(step, frames, old(position), old(lost), written - old(written), used, position, lost)
      ensures step <= ONE ==> lost == old(lost)
      ensures tested <= read && (used < frames ==> written - tested == ringFrames - 1)
    {
      hide Chunk, Frames, SourceIndex, Walk, Voice.Queue, Voice.Resampled, Extend, Voice.Continues, Offered,
           Voice.Shaped, Sounds;
      SingOn(Frames(bits, channels, samples, frames));
      if Addressable(channels, frames) {
        QueueBounds();
        FramesSound(bits, channels, samples, frames, song, taken);
      }
      if frames == 0 {
        NoChunk(step, position, lost);
        return 0, 0, read;
      }
      var count;
      count, tested := Take(samples, frames, ticks);
      answer, used := if count < 0x8000_0000 then count else count - BASE, count;
    }

    /** audio_stream_space: output frames of room. */
    method Space() returns (room: int)
      requires Queue()
      ensures room == ringFrames - (written - read) - 1 && 0 <= room
    {
      room := ringFrames - (written - read) % BASE - 1;
    }

    /** The stream branch of audio_position: how much of the song has been heard, in the song's own frames. */
    method Position() returns (heardFrames: Word)
      requires Queue() && active
      ensures heardFrames == (consumedBase + SourceIndex(read, step)) % BASE
    {
      var scaled := read * step % BASE64 / ONE;
      WrappedProduct(Walk(read, step));
      heardFrames := (consumedBase + scaled) % BASE64 % BASE;
      WrappedSum(consumedBase, scaled, SourceIndex(read, step));
    }

    /** What a listener gets: frame j heard is the song's frame floor(j * step / 2^32), in order, each once. */
    lemma HeardIsResampled()
      requires Valid() && lost == 0
      ensures |heard| == read
      ensures forall j :: 0 <= j < read ==> SourceIndex(j, step) < |song| && heard[j] == song[SourceIndex(j, step)]
    {
    }

    /** A chunk that begins at frame `from` of the song, as a listener gets it. */
    lemma HeardSounds(samples: seq<int>, frames: nat, from: nat, j: nat)
      requires Valid() && lost == 0 && Sounds(bits, channels, samples, frames, song, from)
      requires j < read && from <= SourceIndex(j, step) < from + frames
      ensures j < |heard| && Plays(bits, channels, samples, SourceIndex(j, step) - from, heard[j])
    {
      hide Plays, SourceIndex;
      HeardIsResampled();
    }

    /** audio_stream_flush: the queue is emptied and counting starts again from `from`. */
    method Flush(from: Word)
      requires Valid()
      modifies this`read, this`starved, this`heard, this`written, this`produced, this`position, this`consumedBase
      modifies this`song, this`taken, this`lost
      ensures Valid() && song == [] && taken == 0 && lost == 0 && heard == [] && produced == [] && consumedBase == from
      ensures read == written == 0 && starved == 0
    {
      hide Walk, SourceIndex, Voice.Slot;
      WalkNone(step);
      read, written, position, consumedBase, starved := 0, 0, 0, from, 0;
      song, taken, lost, produced, heard := [], 0, 0, [], [];
    }
  }

  lemma StepRange(rate: int)
    requires 0 < rate <= 192000
    ensures 0 < rate * ONE / HDA_RATE <= 4 * ONE
    ensures rate <= HDA_RATE <==> rate * ONE / HDA_RATE <= ONE
  {
  }

  /** Whole source frames past the end of the chunk that the last step landed on. */
  function Overshoot(position: int, frames: nat): nat {
    if position >= 0 && position / ONE > frames then position / ONE - frames else 0
  }

  /** What one call does to the position: n output frames, `used` source frames, and what the last step overshot is
      lost. */
  predicate Offered(step: nat, frames: nat, position0: nat, lost0: nat, n: nat, used: nat, position: nat, lost: nat) {
    var end := position0 + Walk(n, step);
    position == end % ONE && used + Overshoot(end, frames) == end / ONE && lost == lost0 + Overshoot(end, frames) &&
    (frames > 0 ==> end < frames * ONE + step)
  }

  /** Where a chunk of one frame leaves the position, before its whole part is dropped. */
  function ChunkEnd(position: nat, step: nat): (end: nat)
    requires 0 < step
    ensures ONE <= end && (position < ONE ==> end < ONE + step)
    decreases if position < ONE then ONE - position else 0
  {
    if position >= ONE then position else ChunkEnd(position + step, step)
  }

  /** The position of a stream just opened after k chunks of one frame each, and what it has lost by then. */
  function AloneAt(step: nat, k: nat): (position: nat)
    requires 0 < step
    ensures position < ONE
  {
    if k == 0 then 0 else ChunkEnd(AloneAt(step, k - 1), step) % ONE
  }

  function AloneLost(step: nat, k: nat): nat
    requires 0 < step
  {
    if k == 0 then 0 else AloneLost(step, k - 1) + ChunkEnd(AloneAt(step, k - 1), step) / ONE - 1
  }

  /** That is what the calls do: each one that takes its frame leaves exactly this. */
  lemma OneFrameChunk(step: nat, k: nat, n: nat, position: nat, lost: nat)
    requires 0 < step && Offered(step, 1, AloneAt(step, k), AloneLost(step, k), n, 1, position, lost)
    ensures position == AloneAt(step, k + 1) && lost == AloneLost(step, k + 1)
  {
    EndIsOnly(AloneAt(step, k), step, n);
  }

  lemma {:induction false} EndIsOnly(position: nat, step: nat, n: nat)
    requires 0 < step && position < ONE && ONE <= position + Walk(n, step) < ONE + step
    ensures ChunkEnd(position, step) == position + Walk(n, step)
    decreases n
  {
    if n == 0 {
      WalkNone(step);
    } else {
      WalkNext(n - 1, step);
      if position + step < ONE {
        hide Walk;
        EndIsOnly(position + step, step, n - 1);
      } else if n > 1 {
        WalkNext(n - 2, step);
        hide Walk;
      } else {
        WalkNone(step);
      }
    }
  }

  /** Splitting into chunks is harmless exactly up to the mixer's own rate: above it, a stream just opened and
      offered one frame at a time comes to lose some. */
  lemma OvershootOnlyAbove(step: nat)
    requires 0 < step
    ensures (forall k: nat :: AloneLost(step, k) == 0) <==> step <= ONE
  {
    if step > ONE {
      var k := SomeLost(step, 0);
      assert AloneLost(step, k) > 0;
    } else {
      forall k: nat
        ensures AloneLost(step, k) == 0
      {
        NoneLost(step, k);
      }
    }
  }

  lemma {:induction false} SomeLost(step: nat, k: nat) returns (after: nat)
    requires ONE < step && AloneLost(step, k) == 0
    ensures AloneLost(step, after) > 0
    decreases ONE - AloneAt(step, k)
  {
    var position := AloneAt(step, k);
    assert ChunkEnd(position, step) == position + step;
    if position + step >= 2 * ONE {
      after := k + 1;
    } else {
      assert AloneAt(step, k + 1) == position + step - ONE;
      after := SomeLost(step, k + 1);
    }
  }

  lemma {:induction false} NoneLost(step: nat, k: nat)
    requires 0 < step <= ONE
    ensures AloneLost(step, k) == 0
  {
    if k > 0 {
      NoneLost(step, k - 1);
    }
  }

  /** The fastest rate allowed loses three frames of four when they are offered one at a time. */
  lemma OneAtATimeLoses()
    ensures var step := 192000 * ONE / HDA_RATE; AloneLost(step, 1) == 3 && AloneAt(step, 1) == 0
  {
  }

  /** A 64-bit product that wrapped still has its bits 32 to 63 right. */
  lemma WrappedProduct(x: nat)
    ensures (x % BASE64 / ONE) % BASE == x / ONE % BASE
  {
    var q := x / BASE64;
    assert x == q * BASE64 + x % BASE64;
    assert x / ONE == q * BASE + x % BASE64 / ONE;
  }

  lemma LowHalf(x: nat)
    ensures x % BASE64 % BASE == x % BASE
  {
    var q, r := x / BASE64, x % BASE64;
    var s := r / BASE;
    assert x == BASE * (q * BASE + s) + r % BASE;
    DivModUnique(x, BASE, q * BASE + s, r % BASE);
  }

  lemma SumBelow(base: nat, a: nat)
    ensures (base + a) % BASE == (base + a % BASE) % BASE
  {
    var q, s := a / BASE, (base + a % BASE) / BASE;
    assert base + a == BASE * (q + s) + (base + a % BASE) % BASE;
    DivModUnique(base + a, BASE, q + s, (base + a % BASE) % BASE);
  }

  lemma WrappedSum(base: nat, a: nat, b: nat)
    requires a % BASE == b % BASE
    ensures (base + a) % BASE64 % BASE == (base + b) % BASE
  {
    LowHalf(base + a);
    SumBelow(base, a);
    SumBelow(base, b);
  }

  lemma WalkNone(step: nat)
    ensures Walk(0, step) == 0
  {
  }

  lemma NextSource(j: nat, step: nat, base: nat, position: nat)
    requires Walk(j, step) == base * ONE + position
    ensures SourceIndex(j, step) == base + position / ONE
  {
  }

  /** How many of a chunk's frames the position has come past. */
  function Used(position: nat, frames: nat): (used: nat)
    ensures used <= frames
  {
    if position / ONE > frames then frames else position / ONE
  }

  lemma NoChunk(step: nat, position: nat, lost: nat)
    requires position < ONE
    ensures Offered(step, 0, position, lost, 0, 0, position, lost)
  {
    WalkNone(step);
  }

  lemma EndOfChunk(step: nat, frames: nat, position0: nat, lost: nat, n: nat, position: nat)
    requires position == position0 + Walk(n, step) && position < frames * ONE + step
    ensures Offered(step, frames, position0, lost, n, Used(position, frames), position % ONE,
            lost + Overshoot(position, frames))
    ensures step <= ONE ==> Overshoot(position, frames) == 0
  {
    hide Walk;
  }

  lemma CarriedOver(walked: nat, taken: nat, lost: nat, position: nat, frames: nat)
    requires walked == (taken + lost) * ONE + position
    ensures walked == (taken + Used(position, frames) + (lost + Overshoot(position, frames))) * ONE + position % ONE
  {
  }

  lemma KeepsPrefix(song: seq<Frame>, taken: nat, chunk: seq<Frame>)
    requires taken <= |song|
    requires forall i :: 0 <= i < |chunk| && taken + i < |song| ==> song[taken + i] == chunk[i]
    ensures var s := Extend(song, taken, chunk);
            song <= s && taken + |chunk| <= |s| && s[taken..taken + |chunk|] == chunk
  {
    if taken + |chunk| > |song| {
      assert song == song[..taken] + song[taken..] && song[taken..] == chunk[..|song| - taken];
    }
  }
}
