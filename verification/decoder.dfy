/** The decoder's side of a packet queue: fetching the next packet of the
    current epoch, reacting to flush sentinels, holding back a packet the
    codec refused, and recording the epoch whose end it reached. */
module Decoding {
  import opened Wrappers
  import opened PacketQueues

  class Decoder {
    /** Epoch of the packet decoded last. */
    var pktSerial: int
    /** Epoch whose end of stream the codec reported (0 after a flush). */
    var finishedSerial: int
    /** A packet the codec refused, to be sent again before any other. */
    var pendingPacket: Option<Entry>

    ghost predicate Valid()
      reads this
    {
      pendingPacket.Some? ==> pendingPacket.value.serial == pktSerial && !pendingPacket.value.packet.Flush?
    }

    constructor ()
      ensures Valid() && pktSerial == -1 && finishedSerial == 0 && pendingPacket == None
    {
      pktSerial, finishedSerial, pendingPacket := -1, 0, None;
    }

    /** The next packet to decode: the held-back packet when it still belongs
        to the queue's epoch, otherwise the first packet of the queue's epoch,
        discarding the older packets ahead of it. `None` when the queue ran
        empty first; since the queue's last packet always belongs to its
        epoch, that happens only when the queue had no packet at all. */
    method FetchPacket(q: PacketQueue) returns (r: Option<Entry>)
      requires Valid() && q.Valid()
      modifies this, q
      ensures Valid() && q.Valid() && q.serial == old(q.serial)
      ensures pendingPacket == None && finishedSerial == old(finishedSerial)
      ensures old(pendingPacket).Some? && old(pktSerial) == q.serial ==>
        r == old(pendingPacket) && q.entries == old(q.entries) && pktSerial == old(pktSerial)
      ensures !(old(pendingPacket).Some? && old(pktSerial) == q.serial) ==>
        && (r.Some? <==> old(q.entries) != [])
        && (r.None? ==> q.entries == [] && pktSerial == old(pktSerial))
        && (r.Some? ==> FirstCurrent(old(q.entries), q.entries, r.value, q.serial))
      ensures r.Some? ==> r.value.serial == q.serial && pktSerial == q.serial
    {
      if pendingPacket.Some? {
        r := pendingPacket;
        pendingPacket := None;
        if pktSerial == q.serial {
          return;
        }
      }
      r := PopCurrentPacket(q);
      if r.Some? {
        pktSerial := r.value.serial;
      }
    }

    /** Hands a fetched packet on: a flush sentinel resets the decoder's end
        of stream; any other packet goes to the codec, and is held back when
        the codec cannot take it yet (`codecAccepts` is the codec's answer). */
    method SubmitPacket(e: Entry, codecAccepts: bool)
      requires Valid() && e.serial == pktSerial && pendingPacket == None
      modifies this
      ensures Valid() && pktSerial == old(pktSerial)
      ensures e.packet.Flush? ==> finishedSerial == 0 && pendingPacket == None
      ensures !e.packet.Flush? ==> finishedSerial == old(finishedSerial)
      ensures !e.packet.Flush? && !codecAccepts ==> pendingPacket == Some(e)
      ensures !e.packet.Flush? && codecAccepts ==> pendingPacket == None
    {
      if e.packet.Flush? {
        finishedSerial := 0;
      } else if !codecAccepts {
        pendingPacket := Some(e);
      }
    }

    /** The codec reported the end of its stream: the epoch of the last
        packet is finished. */
    method ReachEndOfStream()
      requires Valid()
      modifies this
      ensures Valid() && finishedSerial == pktSerial
      ensures pktSerial == old(pktSerial) && pendingPacket == old(pendingPacket)
    {
      finishedSerial := pktSerial;
    }
  }

  /** `e` is the first entry of epoch `serial` in `before`, and `after` what
      follows it. */
  ghost predicate FirstCurrent(before: seq<Entry>, after: seq<Entry>, e: Entry, serial: int) {
    var k := |before| - |after| - 1;
    && 0 <= k
    && after == before[k + 1..]
    && e == before[k]
    && e.serial == serial
    && forall i :: 0 <= i < k ==> before[i].serial != serial
  }

  /** Pops packets until one of the queue's epoch turns up; the older ones are
      discarded. `None` exactly when the queue is empty. */
  method PopCurrentPacket(q: PacketQueue) returns (r: Option<Entry>)
    requires q.Valid()
    modifies q
    ensures q.Valid() && q.serial == old(q.serial)
    ensures r.Some? <==> old(q.entries) != []
    ensures r.None? ==> q.entries == []
    ensures r.Some? ==> FirstCurrent(old(q.entries), q.entries, r.value, q.serial)
  {
    ghost var orig := q.entries;
    ghost var current := q.serial;
    while true
      invariant q.Valid() && q.serial == current
      invariant Scanned(orig, q.entries, current)
      decreases |q.entries|
    {
      ghost var rest := q.entries;
      var ok, e := q.PopPacket();
      if !ok {
        return None;
      }
      if e.serial == q.serial {
        ScanStops(orig, rest, current);
        return Some(e);
      }
      ScanSkips(orig, rest, current);
    }
  }

  /** Loop invariant of `PopCurrentPacket`: `rest` is what is left of `orig`
      after popping only packets of other epochs than `current`; the tail of
      a non-empty queue, which is of the current epoch, is still there. */
  ghost predicate Scanned(orig: seq<Entry>, rest: seq<Entry>, current: int) {
    && |rest| <= |orig|
    && rest == orig[|orig| - |rest|..]
    && (forall i :: 0 <= i < |orig| - |rest| ==> orig[i].serial != current)
    && (orig != [] ==> orig[|orig| - 1].serial == current && rest != [])
  }

  lemma ScanSkips(orig: seq<Entry>, rest: seq<Entry>, current: int)
    requires Scanned(orig, rest, current) && rest != [] && rest[0].serial != current
    ensures Scanned(orig, rest[1..], current)
  {
    var n := |orig| - |rest|;
    assert rest[0] == orig[n];
    assert rest[1..] == orig[n + 1..];
  }

  lemma ScanStops(orig: seq<Entry>, rest: seq<Entry>, current: int)
    requires Scanned(orig, rest, current) && rest != [] && rest[0].serial == current
    ensures FirstCurrent(orig, rest[1..], rest[0], current)
  {
    var n := |orig| - |rest|;
    assert rest[0] == orig[n];
    assert rest[1..] == orig[n + 1..];
  }

  /** What the fetch discards and keeps, in terms of flush sentinels: every
      discarded packet (those before position `|before| - |after| - 1`) is of
      an older epoch and has a flush sentinel after it (a seek ended its
      epoch), and no flush sentinel is left behind the fetched packet. */
  lemma DiscardedPrecedeFlush(before: seq<Entry>, after: seq<Entry>, e: Entry, serial: int)
    requires EpochChain(before) && before != [] && before[|before| - 1].serial == serial
    requires FirstCurrent(before, after, e, serial)
    ensures forall i :: 0 <= i < |before| - |after| - 1 ==>
      before[i].serial < serial && FlushCount(before[i + 1..]) > 0
    ensures FlushCount(after) == 0
  {
    var k := |before| - |after| - 1;
    assert after == before[k + 1..];
    CurrentIffNoLaterFlush(before, k);
    forall i | 0 <= i < k
      ensures before[i].serial < serial && FlushCount(before[i + 1..]) > 0
    {
      StaleEntryPrecedesFlush(before, i);
    }
  }

  /** An entry not of the tail's epoch is of an older one, and a flush
      sentinel follows it. */
  lemma StaleEntryPrecedesFlush(es: seq<Entry>, i: int)
    requires EpochChain(es) && 0 <= i < |es| && es[i].serial != es[|es| - 1].serial
    ensures es[i].serial < es[|es| - 1].serial && FlushCount(es[i + 1..]) > 0
  {
    CurrentIffNoLaterFlush(es, i);
    SerialsOrdered(es, i, |es| - 1);
  }
}
