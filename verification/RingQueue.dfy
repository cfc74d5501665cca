/** queue.go: the slice-backed ring. Every method is one critical section and refines QueueSpec. */
module RingQueue {
  import opened LogRecords
  import Q = QueueSpec

  // Slot of the i-th live record.
  function Slot(head: nat, i: nat, length: nat): (s: nat)
    requires head < length && i <= length
  {
    if head + i < length then head + i else head + i - length
  }

  lemma SlotIsModulo(head: nat, i: nat, length: nat)
    requires head < length && i <= length
    ensures Slot(head, i, length) == (head + i) % length
  {
    if head + i >= length {
      ModuloShift(head + i - length, length);
    }
  }

  lemma ModuloShift(r: nat, length: nat)
    requires 0 <= r < length
    ensures (r + length) % length == r
  {
    var d := (r + length) / length;
    assert (d - 1) * length == r - (r + length) % length;
    assert d > 1 ==> (d - 1) * length >= length;
  }

  // Different live positions use different slots.
  lemma SlotInjective(head: nat, i: nat, j: nat, length: nat)
    requires head < length && i < length && j < length && i != j
    ensures Slot(head, i, length) != Slot(head, j, length) < length
  {
  }

  function Window(ring: seq<Record>, head: nat, n: nat): (w: seq<Record>)
    requires head < |ring| && n <= |ring|
  {
    seq(n, i requires 0 <= i < n => ring[Slot(head, i, |ring|)])
  }

  // Slots past the live window hold nothing, so dropped lines can be collected.
  ghost predicate FreeSlotsClear(ring: seq<Record>, head: nat, n: nat)
    requires head < |ring|
  {
    forall i :: n <= i < |ring| ==> ring[Slot(head, i, |ring|)] == ZERO_RECORD
  }

  lemma WindowPush(ring: seq<Record>, head: nat, n: nat, rec: Record)
    requires head < |ring| && n < |ring| && FreeSlotsClear(ring, head, n)
    ensures var ring' := ring[Slot(head, n, |ring|) := rec];
            Window(ring', head, n + 1) == Window(ring, head, n) + [rec] && FreeSlotsClear(ring', head, n + 1)
  {
    forall i | 0 <= i < |ring| && i != n
      ensures Slot(head, i, |ring|) != Slot(head, n, |ring|)
    {
      SlotInjective(head, i, n, |ring|);
    }
  }

  lemma WindowPop(ring: seq<Record>, head: nat, n: nat)
    requires head < |ring| && 0 < n <= |ring| && FreeSlotsClear(ring, head, n)
    ensures var ring' := ring[head := ZERO_RECORD];
            var head' := Slot(head, 1, |ring|);
            Window(ring', head', n - 1) == Window(ring, head, n)[1..] && FreeSlotsClear(ring', head', n - 1)
  {
    var head' := Slot(head, 1, |ring|);
    forall i | 0 <= i < |ring| - 1
      ensures Slot(head', i, |ring|) == Slot(head, i + 1, |ring|) != head
    {
      SlotInjective(head, 0, i + 1, |ring|);
    }
    assert Slot(head', |ring| - 1, |ring|) == head;
  }

  class Queue {
    var closed: bool
    var wakeToken: bool
    var wakeClosed: bool
    const records: array<Record>
    var head: nat
    var queued: nat
    var queuedByte: int
    const maxRecords: nat
    const maxBytes: nat
    var nextSeq: nat
    const overflow: Q.Overflow
    var drops: Q.DropStats
    var counters: Q.Counters

    ghost predicate RingOk()
      reads this, records
    {
      && 0 < maxRecords == records.Length
      && head < maxRecords
      && queued <= maxRecords
      && FreeSlotsClear(records[..], head, queued)
    }

    ghost function Contents(): seq<Record>
      requires RingOk()
      reads this, records
    {
      Window(records[..], head, queued)
    }

    ghost predicate Valid()
      reads this, records
      ensures Valid() ==> RingOk() && Q.ValidState(Abs())
    {
      && RingOk()
      && wakeClosed == closed
      && queuedByte == Bytes(Contents()) <= maxBytes
    }

    ghost function Abs(): Q.QueueState
      requires RingOk()
      reads this, records
    {
      Q.QueueState(Q.QueueConfig(maxRecords, maxBytes, overflow), closed, Q.Wake(wakeToken, wakeClosed),
                   Contents(), nextSeq, drops, counters)
    }

    constructor (maxRecords: nat, maxBytes: nat, overflow: Q.Overflow)
      requires maxRecords > 0
      ensures Valid() && fresh(records)
      ensures Abs() == Q.EmptyQueue(Q.QueueConfig(maxRecords, maxBytes, overflow))
    {
      records := new Record[maxRecords](_ => ZERO_RECORD);
      this.maxRecords, this.maxBytes, this.overflow := maxRecords, maxBytes, overflow;
      closed, wakeToken, wakeClosed := false, false, false;
      head, queued, queuedByte, nextSeq := 0, 0, 0, 0;
      drops, counters := Q.NO_DROPS, Q.Counters(0, 0, 0, 0);
    }

    method HasCapacityLocked(size: nat) returns (r: bool)
      requires Valid()
      ensures r == Q.HasCapacity(Abs(), size)
    {
      r := queued < maxRecords && queuedByte + size <= maxBytes;
    }

    // A send that finds the slot full does nothing; sending after close would panic.
    method SignalLocked()
      requires Valid() && !wakeClosed
      modifies this`wakeToken
      ensures Valid() && Abs() == old(Abs()).(wake := Q.Signal(old(Abs()).wake))
    {
      if !wakeToken {
        wakeToken := true;
      }
    }

    // The common tail of pushLocked and PushInternal: store, number, count, signal.
    method Store(rec: Record)
      requires Valid() && !closed && Q.HasCapacity(Abs(), |rec.line|)
      modifies this, records
      ensures Valid()
      ensures Abs() == Q.Enqueue(old(Abs()), rec)
    {
      ghost var was, ring := Contents(), records[..];
      var idx := (head + queued) % records.Length;
      SlotIsModulo(head, queued, maxRecords);
      var numbered := rec.(seqNo := nextSeq);
      WindowPush(ring, head, queued, numbered);
      records[idx] := numbered;
      nextSeq := nextSeq + 1;
      queued := queued + 1;
      queuedByte := queuedByte + |rec.line|;
      assert records[..] == ring[idx := numbered];
      BytesSnoc(was, numbered);
      assert Contents() == was + [numbered];
      SignalLocked();
    }

    method PushLocked(meta: RecordMeta, line: bytes)
      requires Valid() && !closed && Q.HasCapacity(Abs(), |line|)
      modifies this, records
      ensures Valid()
      ensures Abs() == Q.Accept(old(Abs()), meta, line)
    {
      Store(FromMeta(meta, line, nextSeq));
      counters := counters.(acceptedRecords := counters.acceptedRecords + 1,
                            acceptedBytes := counters.acceptedBytes + |line|);
    }

    method CountDrop(size: nat, policy: Q.Overflow)
      requires Valid()
      modifies this`drops, this`counters
      ensures Valid() && Abs() == Q.CountDrop(old(Abs()), size, policy)
    {
      drops := Q.DropStats(drops.records + 1, drops.bytes + size, Some(policy));
      counters := counters.(droppedRecords := counters.droppedRecords + 1,
                            droppedBytes := counters.droppedBytes + size);
    }

    // Takes the head record out and clears its slot.
    method RemoveHead() returns (rec: Record)
      requires Valid() && queued > 0
      modifies this, records
      ensures Valid()
      ensures rec == old(Contents())[0]
      ensures Abs() == old(Abs()).(contents := old(Contents())[1..])
    {
      ghost var was, ring := Contents(), records[..];
      WindowPop(ring, head, queued);
      rec := records[head];
      records[head] := ZERO_RECORD;
      assert records[..] == ring[head := ZERO_RECORD];
      SlotIsModulo(head, 1, maxRecords);
      head := (head + 1) % records.Length;
      queued := queued - 1;
      queuedByte := queuedByte - |rec.line|;
      BytesHead(was);
      assert Contents() == was[1..];
      assert RingOk();
    }

    method PushDropOldestLocked(meta: RecordMeta, line: bytes) returns (accepted: bool)
      requires Valid() && !closed && overflow == Q.DropOldest
      modifies this, records
      ensures Valid()
      ensures Abs() == Q.PushDropOldest(old(Abs()), meta, line).0
      ensures accepted == (Q.PushDropOldest(old(Abs()), meta, line).1 == Q.Accepted)
    {
      var size := |line|;
      if size > maxBytes {
        CountDrop(size, Q.DropOldest);
        return false;
      }
      Q.EvictForKeeps(Abs(), size);
      while !(queued < maxRecords && queuedByte + size <= maxBytes) && queued > 0
        invariant Valid() && !closed
        invariant Q.EvictFor(Abs(), size) == Q.EvictFor(old(Abs()), size)
        decreases queued
      {
        var rec := RemoveHead();
        CountDrop(|rec.line|, Q.DropOldest);
      }
      var room := HasCapacityLocked(size);
      if !room {
        // The source counts one more drop here; the branch is never taken.
        assert false;
      }
      PushLocked(meta, line);
      return true;
    }

    // Push from acquiring the mutex up to returning or waiting on notFull.
    method Push(meta: RecordMeta, line: bytes) returns (r: Q.PushResult)
      requires Valid()
      modifies this, records
      ensures Valid()
      ensures (Abs(), r) == Q.Push(old(Abs()), meta, line)
    {
      if overflow == Q.Block {
        var room := HasCapacityLocked(|line|);
        if !closed && !room {
          return Q.MustWait;
        }
        if closed {
          return Q.Refused;
        }
        PushLocked(meta, line);
        return Q.Accepted;
      }
      if closed {
        return Q.Refused;
      }
      var room := HasCapacityLocked(|line|);
      if !room {
        if overflow == Q.DropOldest {
          var accepted := PushDropOldestLocked(meta, line);
          return if accepted then Q.Accepted else Q.Refused;
        }
        CountDrop(|line|, Q.DropNewest);
        return Q.Refused;
      }
      PushLocked(meta, line);
      return Q.Accepted;
    }

    method PushInternal(rec: Record) returns (accepted: bool)
      requires Valid()
      modifies this, records
      ensures Valid()
      ensures (Abs(), accepted) == Q.PushInternal(old(Abs()), rec)
    {
      var room := HasCapacityLocked(|rec.line|);
      if closed || !room {
        return false;
      }
      Store(rec);
      return true;
    }

    method Pop() returns (rec: Option<Record>)
      requires Valid()
      modifies this, records
      ensures Valid()
      ensures (Abs(), rec) == Q.Pop(old(Abs()))
      ensures rec == if old(Contents()) == [] then None else Some(old(Contents())[0])
      ensures Contents() == if rec.None? then [] else old(Contents())[1..]
    {
      if queued == 0 {
        return None;
      }
      var r := RemoveHead();
      return Some(r);
    }

    method Close()
      requires Valid()
      modifies this
      ensures Valid()
      ensures Abs() == Q.Close(old(Abs()))
      ensures closed && wakeClosed && wakeToken == old(wakeToken) && Contents() == old(Contents()) && drops == old(drops)
    {
      if !closed {
        closed := true;
        assert !wakeClosed; // closing it twice would panic
        wakeClosed := true;
      }
    }

    method TakeDrops() returns (d: Q.DropStats)
      requires Valid()
      modifies this`drops
      ensures Valid()
      ensures (Abs(), d) == Q.TakeDrops(old(Abs()))
      ensures d == old(drops) && drops.records == 0 && drops.bytes == 0 && drops.policy.None?
    {
      d := drops;
      drops := Q.NO_DROPS;
    }

    method Snapshot() returns (queuedRecords: nat, bytesQueued: int)
      requires Valid()
      ensures queuedRecords == |Contents()| <= maxRecords
      ensures bytesQueued == Bytes(Contents()) <= maxBytes
    {
      queuedRecords, bytesQueued := queued, queuedByte;
    }

    // The receive on Wake() in the writer's select: None when it would block, otherwise the value
    // of open. A buffered token is delivered before the close is seen.
    method TryReceiveWake() returns (open: Option<bool>)
      requires Valid()
      modifies this`wakeToken
      ensures Valid()
      ensures (Abs(), open) == Q.ReceiveWake(old(Abs()))
      ensures open == if old(wakeToken) then Some(true) else if closed then Some(false) else None
      ensures !wakeToken
    {
      if wakeToken {
        wakeToken := false;
        return Some(true);
      }
      return if wakeClosed then Some(false) else None;
    }
  }
}
