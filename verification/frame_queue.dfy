/** The per-stream ring buffer of decoded frames. Its slots are allocated once;
    the decoder fills the slot at `writeIndex` and commits it, the presenting
    side reads at `readIndex`. With `keepLast`, the frame shown last stays in
    its slot (flag `readIndexShown`) so that its timing can be compared with
    the next one. */
module FrameQueues {

  /** Capacities the player asks for: video and audio frame queues. */
  const MAX_VIDEO_FRAME_QUEUE_COUNT: int := 4
  const MAX_AUDIO_FRAME_QUEUE_COUNT: int := 8
  /** Number of slots every frame queue holds: the larger of the two capacities. */
  const MAX_FRAME_QUEUE_COUNT: int :=
    if MAX_AUDIO_FRAME_QUEUE_COUNT > MAX_VIDEO_FRAME_QUEUE_COUNT then MAX_AUDIO_FRAME_QUEUE_COUNT else MAX_VIDEO_FRAME_QUEUE_COUNT

  /** Slot holding the frame `offset` places after the one at `start`, in a
      ring of `c` slots: past the last slot the count wraps to slot 0. */
  function RingSlot(start: int, offset: int, c: int): int
    requires 0 <= start < c && 0 <= offset <= c
  {
    if start + offset < c then start + offset else start + offset - c
  }

  /** Within two laps, reducing modulo `c` subtracts `c` at most once. */
  lemma ModSmall(x: int, c: int)
    requires 0 < c <= MAX_FRAME_QUEUE_COUNT && 0 <= x < 2 * c
    ensures x % c == if x < c then x else x - c
  {
    // one case per ring size keeps the arithmetic linear
    if c == 1 {
    } else if c == 2 {
    } else if c == 3 {
    } else if c == 4 {
    } else if c == 5 {
    } else if c == 6 {
    } else if c == 7 {
    } else {
      assert c == 8;
    }
  }

  /** The ring step is the remainder the queue computes its indices with. */
  lemma RingSlotIsMod(start: int, offset: int, c: int)
    requires 0 <= start < c <= MAX_FRAME_QUEUE_COUNT && 0 <= offset
    ensures offset <= c ==> RingSlot(start, offset, c) == (start + offset) % c
  {
    if offset <= c {
      ModSmall(start + offset, c);
    }
  }

  class FrameQueue<T(0)> {
    var frames: array<T>
    var readIndex: int
    var writeIndex: int
    var count: int
    var capacity: int
    var keepLast: bool
    var readIndexShown: int
    /** The committed frames, oldest first; with `readIndexShown == 1` the first
        one is the frame on display. */
    ghost var Contents: seq<T>

    ghost predicate Valid()
      reads this, frames
    {
      && frames.Length == MAX_FRAME_QUEUE_COUNT
      && 1 <= capacity <= MAX_FRAME_QUEUE_COUNT
      && 0 <= readIndex < capacity
      && 0 <= writeIndex < capacity
      && 0 <= count <= capacity
      && writeIndex == RingSlot(readIndex, count, capacity)
      && 0 <= readIndexShown <= 1
      && readIndexShown <= count
      && (readIndexShown == 1 ==> keepLast)
      && |Contents| == count
      && forall i :: 0 <= i < count ==> Contents[i] == frames[RingSlot(readIndex, i, capacity)]
    }

    /** The queue after initialisation: capacity capped at the slot count,
        everything else zero. */
    constructor (capacity: int, keepLast: bool)
      requires 1 <= capacity
      ensures Valid() && fresh(frames)
      ensures this.capacity == if capacity < MAX_FRAME_QUEUE_COUNT then capacity else MAX_FRAME_QUEUE_COUNT
      ensures this.keepLast == keepLast
      ensures Contents == [] && readIndex == 0 && writeIndex == 0 && readIndexShown == 0
    {
      frames := new T[MAX_FRAME_QUEUE_COUNT];
      this.capacity := if capacity < MAX_FRAME_QUEUE_COUNT then capacity else MAX_FRAME_QUEUE_COUNT;
      this.keepLast := keepLast;
      readIndex, writeIndex, count, readIndexShown := 0, 0, 0, 0;
      Contents := [];
    }

    /** The frame to present: the oldest frame not yet shown. */
    function PeekCurrent(): (f: T)
      reads this, frames
      requires Valid()
      ensures readIndexShown < count ==> f == Contents[readIndexShown]
    {
      RingSlotIsMod(readIndex, readIndexShown, capacity);
      frames[(readIndex + readIndexShown) % capacity]
    }

    /** The frame after the one to present. */
    function PeekNext(): (f: T)
      reads this, frames
      requires Valid()
      ensures readIndexShown + 1 < count ==> f == Contents[readIndexShown + 1]
    {
      RingSlotIsMod(readIndex, readIndexShown + 1, capacity);
      frames[(readIndex + readIndexShown + 1) % capacity]
    }

    /** The frame at the read index: the one shown last when `readIndexShown`
        is set, otherwise the same frame as `PeekCurrent`. */
    function PeekLast(): (f: T)
      reads this, frames
      requires Valid()
      ensures 0 < count ==> f == Contents[0]
      ensures readIndexShown == 0 ==> f == PeekCurrent()
    {
      ModSmall(readIndex, capacity);
      frames[readIndex]
    }

    /** Frames committed but not yet shown. */
    function RemainingCount(): (n: int)
      reads this, frames
      requires Valid()
      ensures 0 <= n <= count && n == |Contents[readIndexShown..]|
    {
      count - readIndexShown
    }

    /** The slot the decoder may fill next, refused when the queue is full or
        decoding was stopped. */
    method PeekWritable(stopped: bool) returns (ok: bool, slot: int)
      requires Valid()
      ensures ok <==> count < capacity && !stopped
      ensures ok ==> slot == writeIndex
      ensures ok ==> forall i :: 0 <= i < count ==> RingSlot(readIndex, i, capacity) != slot
    {
      if count >= capacity || stopped {
        return false, 0;
      }
      ok, slot := true, writeIndex;
    }

    /** The frame to present, refused when every committed frame has been
        shown or decoding was stopped. */
    method PeekReadable(stopped: bool) returns (ok: bool, slot: int)
      requires Valid()
      ensures ok <==> count - readIndexShown > 0 && !stopped
      ensures ok ==> 0 <= slot < capacity && frames[slot] == Contents[readIndexShown]
    {
      if count - readIndexShown <= 0 || stopped {
        return false, 0;
      }
      RingSlotIsMod(readIndex, readIndexShown, capacity);
      ok, slot := true, (readIndex + readIndexShown) % capacity;
    }

    /** The decoder's store into the slot it was given by `PeekWritable`. */
    method WriteSlot(f: T)
      requires Valid() && count < capacity
      modifies frames
      ensures Valid() && frames[writeIndex] == f
      ensures Contents == old(Contents)
    {
      frames[writeIndex] := f;
    }

    /** Commits the filled slot: the write index moves on one slot and the
        frame joins the queue. */
    method NextWritable()
      requires Valid() && count < capacity
      modifies this
      ensures Valid()
      ensures Contents == old(Contents) + [frames[old(writeIndex)]]
      ensures writeIndex == (old(writeIndex) + 1) % capacity
      ensures count == old(count) + 1
      ensures readIndex == old(readIndex) && readIndexShown == old(readIndexShown)
      ensures capacity == old(capacity) && keepLast == old(keepLast) && frames == old(frames)
    {
      Contents := Contents + [frames[writeIndex]];
      RingSlotIsMod(writeIndex, 1, capacity);
      writeIndex := (writeIndex + 1) % capacity;
      count := count + 1;
    }

    /** Moves past the frame just presented. In keep-last mode the very first
        call only marks the frame at the read index as shown; every other call
        releases that frame and advances the read index. */
    method NextReadable()
      requires Valid() && count - readIndexShown > 0
      modifies this
      ensures Valid()
      ensures old(keepLast && readIndexShown == 0) ==>
        readIndexShown == 1 && readIndex == old(readIndex) && count == old(count) && Contents == old(Contents)
      ensures !old(keepLast && readIndexShown == 0) ==>
        && readIndexShown == old(readIndexShown)
        && readIndex == (old(readIndex) + 1) % capacity
        && count == old(count) - 1
        && Contents == old(Contents)[1..]
      ensures writeIndex == old(writeIndex) && capacity == old(capacity)
      ensures keepLast == old(keepLast) && frames == old(frames)
    {
      if keepLast && readIndexShown == 0 {
        readIndexShown := 1;
        return;
      }
      RingSlotIsMod(readIndex, 1, capacity);
      readIndex := (readIndex + 1) % capacity;
      count := count - 1;
      Contents := Contents[1..];
    }
  }
}
