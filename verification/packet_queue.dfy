/** The per-stream packet queue of the player: a FIFO of compressed packets.
    Every packet is stamped, when it is pushed, with the queue's epoch ("serial").
    The epoch moves forward only when the flush sentinel is pushed, which is how
    packets read before a seek are told apart from those read after it. */
module PacketQueues {

  /** A queued packet. The flush sentinel (recognised in the player by the address
      of its payload) and the end-of-stream null packet are tags of their own. */
  datatype Packet =
    | Media(size: nat, duration: int)
    | Flush
    | Null(streamIndex: int)

  /** A list node: the packet and the serial it was stamped with. */
  datatype Entry = Entry(packet: Packet, serial: int)

  /** Payload bytes of a packet; the sentinel and the null packet carry none. */
  function PayloadSize(p: Packet): nat {
    if p.Media? then p.size else 0
  }

  /** Duration of a packet; the sentinel and the null packet have duration 0. */
  function PacketDuration(p: Packet): int {
    if p.Media? then p.duration else 0
  }

  /** Bytes accounted for a list of nodes: payload plus node size per entry. */
  function TotalSize(es: seq<Entry>, nodeSize: nat): nat {
    if es == [] then 0 else PayloadSize(es[0].packet) + nodeSize + TotalSize(es[1..], nodeSize)
  }

  function TotalDuration(es: seq<Entry>): int {
    if es == [] then 0 else PacketDuration(es[0].packet) + TotalDuration(es[1..])
  }

  /** Number of flush sentinels in a list. */
  function FlushCount(es: seq<Entry>): nat {
    if es == [] then 0 else (if es[0].packet.Flush? then 1 else 0) + FlushCount(es[1..])
  }

  /** The serials along the list: each entry carries its predecessor's serial,
      plus one when the entry is a flush sentinel. */
  ghost predicate EpochChain(es: seq<Entry>) {
    forall j :: 0 < j < |es| ==> Linked(es, j)
  }

  /** Entry `j` carries the serial of entry `j - 1`, plus one for a flush sentinel. */
  ghost predicate Linked(es: seq<Entry>, j: int)
    requires 0 < j < |es|
  {
    es[j].serial == es[j - 1].serial + (if es[j].packet.Flush? then 1 else 0)
  }

  /** Appending the entry the queue stamps next keeps the chain. */
  lemma ChainAppend(es: seq<Entry>, e: Entry)
    requires EpochChain(es)
    requires es != [] ==> e.serial == es[|es| - 1].serial + (if e.packet.Flush? then 1 else 0)
    ensures EpochChain(es + [e])
  {
    var es' := es + [e];
    forall j | 0 < j < |es'|
      ensures Linked(es', j)
    {
      if j < |es| {
        assert Linked(es, j);
      }
    }
  }

  lemma {:induction false} TotalSizeAppend(es: seq<Entry>, e: Entry, nodeSize: nat)
    ensures TotalSize(es + [e], nodeSize) == TotalSize(es, nodeSize) + PayloadSize(e.packet) + nodeSize
  {
    if es != [] {
      assert (es + [e])[1..] == es[1..] + [e];
      TotalSizeAppend(es[1..], e, nodeSize);
    }
  }

  lemma {:induction false} TotalDurationAppend(es: seq<Entry>, e: Entry)
    ensures TotalDuration(es + [e]) == TotalDuration(es) + PacketDuration(e.packet)
  {
    if es != [] {
      assert (es + [e])[1..] == es[1..] + [e];
      TotalDurationAppend(es[1..], e);
    }
  }

  lemma {:induction false} FlushCountAppend(es: seq<Entry>, e: Entry)
    ensures FlushCount(es + [e]) == FlushCount(es) + (if e.packet.Flush? then 1 else 0)
  {
    if es != [] {
      assert (es + [e])[1..] == es[1..] + [e];
      FlushCountAppend(es[1..], e);
    }
  }

  /** Along an epoch chain, the last serial exceeds the first by the number of
      flush sentinels behind the head. */
  lemma {:induction false} EpochDistance(es: seq<Entry>)
    requires es != [] && EpochChain(es)
    ensures es[|es| - 1].serial == es[0].serial + FlushCount(es[1..])
  {
    var n := |es|;
    if n > 1 {
      var init := es[..n - 1];
      SliceIsChain(es, 0, n - 1);
      assert init == es[0..n - 1];
      assert Linked(es, n - 1);
      EpochDistance(init);
      assert es[1..] == init[1..] + [es[n - 1]];
      FlushCountAppend(init[1..], es[n - 1]);
    }
  }

  /** A slice of an epoch chain is an epoch chain. */
  lemma SliceIsChain(es: seq<Entry>, i: int, j: int)
    requires EpochChain(es) && 0 <= i <= j <= |es|
    ensures EpochChain(es[i..j])
  {
    var s := es[i..j];
    forall k | 0 < k < |s|
      ensures Linked(s, k)
    {
      assert Linked(es, i + k);
    }
  }

  /** Serials never decrease from the head of the queue to its tail. */
  lemma SerialsOrdered(es: seq<Entry>, i: int, j: int)
    requires EpochChain(es) && 0 <= i <= j < |es|
    ensures es[i].serial <= es[j].serial
  {
    SliceIsChain(es, i, j + 1);
    EpochDistance(es[i..j + 1]);
  }

  /** An entry belongs to the tail's (current) epoch exactly when no flush
      sentinel was queued after it: stale packets are precisely those overtaken
      by a flush. */
  lemma CurrentIffNoLaterFlush(es: seq<Entry>, i: int)
    requires EpochChain(es) && 0 <= i < |es|
    ensures es[i].serial == es[|es| - 1].serial <==> FlushCount(es[i + 1..]) == 0
  {
    SliceIsChain(es, i, |es|);
    assert es[i..] == es[i..|es|];
    EpochDistance(es[i..]);
    assert es[i..][1..] == es[i + 1..];
  }

  /** A flush sentinel separates epochs: everything queued before it has a
      strictly smaller serial than everything from it on. */
  lemma FlushSeparatesEpochs(es: seq<Entry>, i: int, k: int, j: int)
    requires EpochChain(es) && 0 <= i < k <= j < |es| && es[k].packet.Flush?
    ensures es[i].serial < es[j].serial
  {
    SerialsOrdered(es, i, k - 1);
    assert Linked(es, k);
    SerialsOrdered(es, k, j);
  }

  class PacketQueue {
    var entries: seq<Entry>
    var size: int
    var duration: int
    var packetCount: int
    var serial: int
    /** Bytes of one list node, added to `size` for every queued packet. */
    const nodeSize: nat

    ghost predicate Valid()
      reads this
    {
      && packetCount == |entries|
      && size == TotalSize(entries, nodeSize)
      && duration == TotalDuration(entries)
      && EpochChain(entries)
      && (entries != [] ==> entries[|entries| - 1].serial == serial)
      && serial >= 0
    }

    /** A zero-initialised queue: empty, epoch 0. */
    constructor (nodeSize: nat)
      ensures Valid()
      ensures entries == [] && serial == 0 && size == 0 && duration == 0
      ensures this.nodeSize == nodeSize
    {
      this.nodeSize := nodeSize;
      entries := [];
      size, duration, packetCount, serial := 0, 0, 0, 0;
    }

    /** Appends `p` at the tail. A flush sentinel first moves the epoch forward;
        the packet is stamped with the (new) epoch. */
    method PushPacket(p: Packet)
      requires Valid()
      modifies this
      ensures Valid()
      ensures serial == old(serial) + (if p.Flush? then 1 else 0)
      ensures entries == old(entries) + [Entry(p, serial)]
      ensures packetCount == old(packetCount) + 1
      ensures size == old(size) + PayloadSize(p) + nodeSize
      ensures duration == old(duration) + PacketDuration(p)
    {
      if p.Flush? {
        serial := serial + 1;
      }
      var e := Entry(p, serial);
      ChainAppend(entries, e);
      TotalSizeAppend(entries, e, nodeSize);
      TotalDurationAppend(entries, e);
      entries := entries + [e];
      size := size + PayloadSize(p) + nodeSize;
      duration := duration + PacketDuration(p);
      packetCount := packetCount + 1;
    }

    /** Detaches the head. An empty queue is not an error: the result is false
        and nothing changes. */
    method PopPacket() returns (ok: bool, e: Entry)
      requires Valid()
      modifies this
      ensures Valid()
      ensures ok <==> old(entries) != []
      ensures !ok ==> unchanged(this)
      ensures ok ==> e == old(entries)[0] && entries == old(entries)[1..]
      ensures ok ==> packetCount == old(packetCount) - 1
      ensures ok ==> size == old(size) - PayloadSize(e.packet) - nodeSize
      ensures ok ==> duration == old(duration) - PacketDuration(e.packet)
      ensures serial == old(serial)
    {
      if entries == [] {
        ok, e := false, Entry(Flush, 0);
        return;
      }
      ok, e := true, entries[0];
      SliceIsChain(entries, 1, |entries|);
      assert entries[1..] == entries[1..|entries|];
      entries := entries[1..];
      size := size - PayloadSize(e.packet) - nodeSize;
      duration := duration - PacketDuration(e.packet);
      packetCount := packetCount - 1;
    }

    /** Drops every queued packet and zeroes the accumulators; the epoch keeps
        its value. Walking the list releases every node once, and the payload
        of every packet but the flush sentinels, which own none. */
    method FlushPacketQueue() returns (nodesFreed: nat, payloadsReleased: nat)
      requires Valid()
      modifies this
      ensures Valid()
      ensures entries == [] && packetCount == 0 && size == 0 && duration == 0
      ensures serial == old(serial)
      ensures nodesFreed == |old(entries)|
      ensures payloadsReleased == |old(entries)| - FlushCount(old(entries))
    {
      nodesFreed, payloadsReleased := 0, 0;
      var i := 0;
      while i < |entries|
        modifies {}
        invariant 0 <= i <= |entries|
        invariant nodesFreed == i
        invariant payloadsReleased == i - FlushCount(entries[..i])
      {
        assert entries[..i + 1] == entries[..i] + [entries[i]];
        FlushCountAppend(entries[..i], entries[i]);
        if !entries[i].packet.Flush? {
          payloadsReleased := payloadsReleased + 1;
        }
        nodesFreed := nodesFreed + 1;
        i := i + 1;
      }
      assert entries[..i] == entries;
      entries := [];
      packetCount, size, duration := 0, 0, 0;
    }

    /** Queues the flush sentinel; `nodeAvailable` is whether a list node could be
        allocated. Without a node nothing is queued. */
    method PushFlushPacket(nodeAvailable: bool) returns (ok: bool)
      requires Valid()
      modifies this
      ensures Valid()
      ensures ok == nodeAvailable
      ensures ok ==> serial == old(serial) + 1 && entries == old(entries) + [Entry(Flush, serial)]
      ensures ok ==> size == old(size) + nodeSize && duration == old(duration)
      ensures !ok ==> unchanged(this)
    {
      ok := nodeAvailable;
      if ok {
        PushPacket(Flush);
      }
    }

    /** Queues the end-of-stream marker for `streamIndex`, in the current epoch. */
    method PushNullPacket(streamIndex: int, nodeAvailable: bool) returns (ok: bool)
      requires Valid()
      modifies this
      ensures Valid()
      ensures ok == nodeAvailable
      ensures ok ==> serial == old(serial) && entries == old(entries) + [Entry(Null(streamIndex), serial)]
      ensures ok ==> size == old(size) + nodeSize && duration == old(duration)
      ensures !ok ==> unchanged(this)
    {
      ok := nodeAvailable;
      if ok {
        PushPacket(Null(streamIndex));
      }
    }
  }
}
