/** The reader's bookkeeping: the seek request latch, the window handed to
    the demuxer's seek, the restart-or-exit decision at the end of the media,
    and the re-priming of both packet queues after a successful seek. */
module Reader {
  import opened PacketQueues
  import opened Wrappers

  const INT64_MIN: int := -0x8000_0000_0000_0000
  const INT64_MAX: int := 0x7FFF_FFFF_FFFF_FFFF

  /** Seek flags of the demuxer library. */
  const AVSEEK_FLAG_BACKWARD: bv32 := 1
  const AVSEEK_FLAG_BYTE: bv32 := 2
  const AVSEEK_FLAG_ANY: bv32 := 4

  /** Arguments of one demuxer seek: acceptable positions `min..max` around `target`. */
  datatype SeekWindow = SeekWindow(min: int, target: int, max: int, flags: bv32)

  /** The window for a seek to `target` that moved `rel` from the current
      position: a forward seek must land past the position it started from, a
      backward seek before it; a seek with `rel == 0` accepts any position. */
  function SeekWindowFor(target: int, rel: int, flags: bv32): (w: SeekWindow)
    ensures w.target == target
    ensures rel > 0 ==> target - rel < w.min && w.max == INT64_MAX
    ensures rel < 0 ==> w.max < target - rel && w.min == INT64_MIN
    ensures rel == 0 ==> w.min == INT64_MIN && w.max == INT64_MAX
    ensures (w.flags & AVSEEK_FLAG_BACKWARD != 0) <==> (rel < 0 || flags & AVSEEK_FLAG_BACKWARD != 0)
    ensures w.flags & !AVSEEK_FLAG_BACKWARD == flags & !AVSEEK_FLAG_BACKWARD
  {
    var seekMin := if rel > 0 then target - rel + 2 else INT64_MIN;
    var seekMax := if rel < 0 then target - rel - 2 else INT64_MAX;
    var seekFlags := if rel < 0 then flags | AVSEEK_FLAG_BACKWARD else flags;
    SeekWindow(seekMin, target, seekMax, seekFlags)
  }

  /** The window keeps two units of distance from the starting position, so
      it contains the target itself exactly when the seek moved by anything
      but one unit (for targets inside the 64-bit range). */
  lemma WindowContainsTarget(target: int, rel: int, flags: bv32)
    requires INT64_MIN <= target <= INT64_MAX
    ensures var w := SeekWindowFor(target, rel, flags);
      w.min <= target <= w.max <==> rel != 1 && rel != -1
  {
  }

  /** The flags a seek request is recorded with: any position, by bytes
      when the demuxer seeks by bytes. */
  function RequestFlags(seekByBytes: bool): (f: bv32)
    ensures f & AVSEEK_FLAG_ANY != 0 && f & AVSEEK_FLAG_BACKWARD == 0
    ensures (f & AVSEEK_FLAG_BYTE != 0) <==> seekByBytes
  {
    if seekByBytes then AVSEEK_FLAG_ANY | AVSEEK_FLAG_BYTE else AVSEEK_FLAG_ANY
  }

  /** A request as the latch records it (never with the backward flag) gets
      the backward flag exactly for backward seeks. */
  lemma BackwardIffNegative(target: int, rel: int, seekByBytes: bool)
    ensures (SeekWindowFor(target, rel, RequestFlags(seekByBytes)).flags & AVSEEK_FLAG_BACKWARD != 0) <==> rel < 0
  {
  }

  /** What the reader knows of one stream when it checks for the end. */
  datatype StreamProgress = StreamProgress(
    isValid: bool,
    finishedSerial: int,
    queueSerial: int,
    remainingFrames: int)

  /** A stream is done when it is absent, or its decoder finished the current
      epoch of its packet queue and every decoded frame has been shown. */
  predicate StreamDone(s: StreamProgress) {
    !s.isValid || (s.finishedSerial == s.queueSerial && s.remainingFrames == 0)
  }

  datatype EndAction = KeepReading | Restart(loop: int) | Exit

  /** The end-of-media decision: when both streams are drained and playback is
      not paused, restart from the beginning while loops remain (`-1` loops
      forever, a positive count is used up one restart at a time), otherwise
      stop reading. */
  function EndOfStreamAction(isPaused: bool, audio: StreamProgress, video: StreamProgress, loop: int): (a: EndAction)
    ensures a.KeepReading? <==> isPaused || !StreamDone(audio) || !StreamDone(video)
    ensures a.Restart? <==> !isPaused && StreamDone(audio) && StreamDone(video) && (loop == -1 || loop > 0)
    ensures a.Restart? ==> (loop > 0 ==> a.loop == loop - 1) && (loop == -1 ==> a.loop == -1)
  {
    if !isPaused && StreamDone(audio) && StreamDone(video) then
      if loop == -1 || loop > 0 then Restart(if loop > 0 then loop - 1 else loop)
      else Exit
    else KeepReading
  }

  /** Progress of a stream that has played to its end. */
  function Finished(serial: int): StreamProgress {
    StreamProgress(true, serial, serial, 0)
  }

  /** How many times playback restarts from an end of media when every end is
      reached with both streams drained. */
  function RestartsBeforeExit(loop: nat): nat {
    match EndOfStreamAction(false, Finished(0), Finished(0), loop)
    case Restart(next) => assert next < loop; 1 + RestartsBeforeExit(next)
    case _ => 0
  }

  /** With `loop == n` the media restarts exactly `n` times before the reader
      exits: it plays `n + 1` times. */
  lemma {:induction false} LoopCountRestarts(n: nat)
    ensures RestartsBeforeExit(n) == n
  {
    if n > 0 {
      LoopCountRestarts(n - 1);
    }
  }

  /** An infinite loop setting never exits. */
  lemma InfiniteLoopNeverExits(audio: StreamProgress, video: StreamProgress, isPaused: bool)
    ensures EndOfStreamAction(isPaused, audio, video, -1) != Exit
    ensures EndOfStreamAction(isPaused, audio, video, -1).Restart? ==> EndOfStreamAction(isPaused, audio, video, -1).loop == -1
  {
  }

  /** The player state the reader shares with the controls. */
  class Player {
    var seekPos: int
    var seekRel: int
    var seekFlags: bv32
    var seekRequired: bool
    const seekByBytes: bool
    var loop: int
    var isPaused: bool
    /** Set to show one frame and pause again. */
    var step: bool
    var readerEOF: bool

    constructor (seekByBytes: bool, isLoop: bool)
      ensures this.seekByBytes == seekByBytes
      ensures loop == (if isLoop then 1 else 0)
      ensures !seekRequired && !isPaused && !step && !readerEOF
    {
      this.seekByBytes := seekByBytes;
      loop := if isLoop then 1 else 0;
      seekPos, seekRel, seekFlags, seekRequired := 0, 0, 0, false;
      isPaused, step, readerEOF := false, false, false;
    }

    /** Records a seek request unless one is already pending; a request made
        while another is pending is dropped. */
    method SeekStream(pos: int, rel: int)
      modifies this
      ensures old(seekRequired) ==> unchanged(this)
      ensures !old(seekRequired) ==>
        && seekRequired && seekPos == pos && seekRel == rel
        && seekFlags == RequestFlags(seekByBytes)
        && loop == old(loop) && isPaused == old(isPaused) && step == old(step) && readerEOF == old(readerEOF)
    {
      if !seekRequired {
        seekPos := pos;
        seekRel := rel;
        seekFlags := AVSEEK_FLAG_ANY;
        if seekByBytes {
          seekFlags := seekFlags | AVSEEK_FLAG_BYTE;
        }
        seekRequired := true;
      }
    }

    /** The reader's end-of-media check: a restart uses up one loop and
        requests a seek to the media's start time (position 0 when the
        container gives none); `exit` is whether the reader stops. */
    method CheckEndOfStream(audio: StreamProgress, video: StreamProgress, startTime: Option<int>)
      returns (exit: bool)
      modifies this
      ensures var a := EndOfStreamAction(old(isPaused), audio, video, old(loop));
        && exit == a.Exit?
        && (a.Restart? ==> loop == a.loop)
        && (!a.Restart? ==> unchanged(this))
        && isPaused == old(isPaused) && step == old(step) && readerEOF == old(readerEOF)
        && (a.Restart? && !old(seekRequired) ==>
              && seekRequired && seekRel == 0 && seekFlags == RequestFlags(seekByBytes)
              && seekPos == (if startTime.Some? then startTime.value else 0))
        && (!a.Restart? || old(seekRequired) ==>
              && seekRequired == old(seekRequired) && seekPos == old(seekPos)
              && seekRel == old(seekRel) && seekFlags == old(seekFlags))
    {
      var a := EndOfStreamAction(isPaused, audio, video, loop);
      exit := a.Exit?;
      if a.Restart? {
        loop := a.loop;
        SeekStream(if startTime.Some? then startTime.value else 0, 0);
      }
    }

    /** Carries out a pending seek. `seekOk` is the demuxer's answer to the
        window returned; on success each present stream's packet queue is
        emptied and restarted with a flush sentinel (a new epoch), provided a
        list node is available for it (`audioNode`, `videoNode`). The request
        is cleared either way, and a paused player is unpaused to step to the
        first frame after the seek. */
    method ProcessSeek(seekOk: bool, audio: PacketQueue?, video: PacketQueue?, audioNode: bool, videoNode: bool)
      returns (w: SeekWindow)
      requires seekRequired
      requires audio != null ==> audio.Valid()
      requires video != null ==> video.Valid()
      requires audio != video || audio == null
      modifies this, audio, video
      ensures w == SeekWindowFor(old(seekPos), old(seekRel), old(seekFlags))
      ensures !seekRequired && !readerEOF
      ensures seekPos == old(seekPos) && seekRel == old(seekRel) && seekFlags == old(seekFlags) && loop == old(loop)
      ensures !isPaused
      ensures step == (old(step) || old(isPaused))
      ensures audio != null ==> audio.Valid()
      ensures video != null ==> video.Valid()
      ensures audio != null && seekOk && audioNode ==>
        audio.serial == old(audio.serial) + 1 && audio.entries == [Entry(Flush, audio.serial)]
      ensures video != null && seekOk && videoNode ==>
        video.serial == old(video.serial) + 1 && video.entries == [Entry(Flush, video.serial)]
      ensures audio != null && seekOk && !audioNode ==> audio.serial == old(audio.serial) && audio.entries == []
      ensures video != null && seekOk && !videoNode ==> video.serial == old(video.serial) && video.entries == []
      ensures audio != null && !seekOk ==> unchanged(audio)
      ensures video != null && !seekOk ==> unchanged(video)
    {
      w := SeekWindowFor(seekPos, seekRel, seekFlags);
      if seekOk {
        if audio != null {
          var _, _ := audio.FlushPacketQueue();
          var _ := audio.PushFlushPacket(audioNode);
        }
        if video != null {
          var _, _ := video.FlushPacketQueue();
          var _ := video.PushFlushPacket(videoNode);
        }
      }
      seekRequired := false;
      readerEOF := false;
      if isPaused {
        isPaused := false;
        step := true;
      }
    }
  }
}
