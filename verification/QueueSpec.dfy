/** What each critical section of queue.go does to the queue, as functions on values. */
module QueueSpec {
  import opened LogRecords

  datatype Overflow = Block | DropOldest | DropNewest

  datatype DropStats = DropStats(records: nat, bytes: nat, policy: Option<Overflow>)

  const NO_DROPS: DropStats := DropStats(0, 0, None)

  // The one-slot wake channel: it may hold a token, and it may be closed.
  datatype Wake = Wake(token: bool, closed: bool)

  datatype QueueConfig = QueueConfig(maxRecords: nat, maxBytes: nat, overflow: Overflow)

  // The cumulative counters of InputStats that the queue updates.
  datatype Counters = Counters(acceptedRecords: nat, acceptedBytes: nat, droppedRecords: nat, droppedBytes: nat)

  datatype QueueState = QueueState(
    cfg: QueueConfig, closed: bool, wake: Wake, contents: seq<Record>,
    nextSeq: nat, drops: DropStats, counters: Counters)

  // MustWait is the wait-loop guard holding: the caller blocks on the condition variable.
  datatype PushResult = Accepted | Refused | MustWait

  function EmptyQueue(cfg: QueueConfig): QueueState {
    QueueState(cfg, false, Wake(false, false), [], 0, NO_DROPS, Counters(0, 0, 0, 0))
  }

  // Both caps hold.
  predicate Fits(cfg: QueueConfig, rs: seq<Record>) {
    |rs| <= cfg.maxRecords && Bytes(rs) <= cfg.maxBytes
  }

  // What every critical section keeps: bounded memory, and a wake channel closed with the queue.
  predicate ValidState(q: QueueState) {
    && q.cfg.maxRecords > 0
    && q.wake.closed == q.closed
    && Fits(q.cfg, q.contents)
  }

  predicate HasCapacity(q: QueueState, size: nat) {
    |q.contents| < q.cfg.maxRecords && Bytes(q.contents) + size <= q.cfg.maxBytes
  }

  // A non-blocking send: a token already there is enough. Sending on a closed channel would panic,
  // so the precondition is part of the safety claim.
  function Signal(w: Wake): Wake
    requires !w.closed
  {
    w.(token := true)
  }

  function Enqueue(q: QueueState, rec: Record): QueueState
    requires !q.wake.closed
  {
    q.(contents := q.contents + [rec.(seqNo := q.nextSeq)],
       nextSeq := q.nextSeq + 1,
       wake := Signal(q.wake))
  }

  function Accept(q: QueueState, meta: RecordMeta, line: bytes): QueueState
    requires !q.wake.closed
  {
    var c := q.counters;
    Enqueue(q, FromMeta(meta, line, q.nextSeq)).(
      counters := c.(acceptedRecords := c.acceptedRecords + 1, acceptedBytes := c.acceptedBytes + |line|))
  }

  function CountDrop(q: QueueState, size: nat, policy: Overflow): QueueState {
    var c := q.counters;
    q.(drops := DropStats(q.drops.records + 1, q.drops.bytes + size, Some(policy)),
       counters := c.(droppedRecords := c.droppedRecords + 1, droppedBytes := c.droppedBytes + size))
  }

  function EvictHead(q: QueueState): QueueState
    requires q.contents != []
  {
    CountDrop(q.(contents := q.contents[1..]), |q.contents[0].line|, DropOldest)
  }

  // The eviction loop: drop from the head until the incoming size fits or nothing is left.
  function EvictFor(q: QueueState, size: nat): QueueState
    decreases |q.contents|
  {
    if HasCapacity(q, size) || q.contents == [] then q else EvictFor(EvictHead(q), size)
  }

  function PushDropOldest(q: QueueState, meta: RecordMeta, line: bytes): (QueueState, PushResult)
    requires !q.wake.closed
  {
    if |line| > q.cfg.maxBytes then (CountDrop(q, |line|, DropOldest), Refused)
    else
      EvictForKeeps(q, |line|);
      var e := EvictFor(q, |line|);
      if !HasCapacity(e, |line|) then (CountDrop(e, |line|, DropOldest), Refused)
      else (Accept(e, meta, line), Accepted)
  }

  // One pass through Push with the mutex held: it returns, or finds that it has to wait.
  function Push(q: QueueState, meta: RecordMeta, line: bytes): (QueueState, PushResult)
    requires ValidState(q)
  {
    if q.closed then (q, Refused)
    else if HasCapacity(q, |line|) then (Accept(q, meta, line), Accepted)
    else match q.cfg.overflow
      case Block => (q, MustWait)
      case DropOldest => PushDropOldest(q, meta, line)
      case DropNewest => (CountDrop(q, |line|, DropNewest), Refused)
  }

  function PushInternal(q: QueueState, rec: Record): (QueueState, bool)
    requires ValidState(q)
  {
    if q.closed || !HasCapacity(q, |rec.line|) then (q, false) else (Enqueue(q, rec), true)
  }

  function Pop(q: QueueState): (QueueState, Option<Record>) {
    if q.contents == [] then (q, None)
    else (q.(contents := q.contents[1..]), Some(q.contents[0]))
  }

  // Closing a closed channel would panic; the guard on q.closed rules it out.
  function Close(q: QueueState): QueueState {
    if q.closed then q else q.(closed := true, wake := q.wake.(closed := true))
  }

  function TakeDrops(q: QueueState): (QueueState, DropStats) {
    (q.(drops := NO_DROPS), q.drops)
  }

  // A receive from the wake channel: None would block, otherwise the value of "open". A buffered
  // token is delivered before the close is seen.
  function ReceiveWake(q: QueueState): (QueueState, Option<bool>) {
    if q.wake.token then (q.(wake := q.wake.(token := false)), Some(true))
    else (q, if q.wake.closed then Some(false) else None)
  }

  /* ---- What the eviction loop achieves ---- */

  // Eviction touches only the contents and the drop tallies.
  lemma EvictForKeeps(q: QueueState, size: nat)
    ensures var e := EvictFor(q, size);
            e == q.(contents := e.contents, drops := e.drops, counters := e.counters)
    decreases |q.contents|
  {
    if !HasCapacity(q, size) && q.contents != [] {
      EvictForKeeps(EvictHead(q), size);
    }
  }

  // rs is the longest suffix of all[from..] within both caps: one record more would not fit.
  ghost predicate LongestFittingSuffix(cfg: QueueConfig, all: seq<Record>, from: nat, lo: nat)
    requires from <= lo <= |all|
  {
    && Fits(cfg, all[lo..])
    && (lo > from ==> !Fits(cfg, all[lo - 1..]))
  }

  lemma BytesOfSuffix(rs: seq<Record>, k: nat)
    requires k <= |rs|
    ensures Bytes(rs) == Bytes(rs[..k]) + Bytes(rs[k..])
  {
    assert rs == rs[..k] + rs[k..];
    BytesConcat(rs[..k], rs[k..]);
  }

  // "One more would not fit" is enough for longest: no longer suffix fits either.
  lemma LongerSuffixesDoNotFit(cfg: QueueConfig, all: seq<Record>, from: nat, lo: nat, k: nat)
    requires from <= k < lo <= |all|
    requires LongestFittingSuffix(cfg, all, from, lo)
    ensures !Fits(cfg, all[k..])
  {
    BytesOfSuffix(all[k..], lo - 1 - k);
    assert all[k..][lo - 1 - k..] == all[lo - 1..];
  }

  // From q to e, exactly the k oldest records were dropped and tallied.
  ghost predicate Evicts(q: QueueState, e: QueueState, k: int) {
    && 0 <= k <= |q.contents|
    && e.contents == q.contents[k..]
    && e.drops.records == q.drops.records + k
    && e.drops.bytes == q.drops.bytes + Bytes(q.contents[..k])
    && e.drops.policy == (if k == 0 then q.drops.policy else Some(DropOldest))
    && e.counters == q.counters.(droppedRecords := q.counters.droppedRecords + k,
                                 droppedBytes := q.counters.droppedBytes + Bytes(q.contents[..k]))
    && e == q.(contents := e.contents, drops := e.drops, counters := e.counters)
  }

  // The loop makes room, and k is the least number that does: with k - 1 evictions the record would
  // still not have fitted.
  lemma {:induction false} EvictForDropsLeast(q: QueueState, size: nat) returns (k: nat)
    requires q.cfg.maxRecords > 0 && size <= q.cfg.maxBytes
    ensures Evicts(q, EvictFor(q, size), k) && HasCapacity(EvictFor(q, size), size)
    ensures k > 0 ==> !HasCapacity(q.(contents := q.contents[k - 1..]), size)
    decreases |q.contents|
  {
    if HasCapacity(q, size) || q.contents == [] {
      k := 0;
      assert q.contents[0..] == q.contents;
    } else {
      var j := EvictForDropsLeast(EvictHead(q), size);
      k := j + 1;
      var tail := q.contents[1..];
      assert q.contents[..k] == [q.contents[0]] + tail[..j];
      BytesConcat([q.contents[0]], tail[..j]);
      BytesOne(q.contents[0]);
      assert tail[j..] == q.contents[k..];
      if j > 0 {
        assert tail[j - 1..] == q.contents[k - 1..];
      } else {
        assert q.contents[k - 1..] == q.contents;
      }
    }
  }

  // Under drop-oldest an open queue accepts exactly the lines that fit its byte cap, so the second
  // rejection branch of pushDropOldestLocked is never taken.
  lemma DropOldestAcceptsIffFits(q: QueueState, meta: RecordMeta, line: bytes)
    requires ValidState(q) && !q.closed && q.cfg.overflow == DropOldest
    ensures Push(q, meta, line).1 == Accepted <==> |line| <= q.cfg.maxBytes
    ensures |line| <= q.cfg.maxBytes ==> HasCapacity(EvictFor(q, |line|), |line|)
  {
    if |line| <= q.cfg.maxBytes {
      var k := EvictForDropsLeast(q, |line|);
    }
  }

  // From q to q', the k oldest records made way, were tallied, and rec was appended and signalled.
  ghost predicate Admits(q: QueueState, q': QueueState, k: int, rec: Record) {
    && 0 <= k <= |q.contents|
    && q'.contents == q.contents[k..] + [rec]
    && q'.nextSeq == q.nextSeq + 1
    && q'.wake == Wake(true, false)
    && q'.closed == q.closed && q'.cfg == q.cfg
    && q'.drops.records == q.drops.records + k
    && q'.drops.bytes == q.drops.bytes + Bytes(q.contents[..k])
    && q'.drops.policy == (if k == 0 then q.drops.policy else Some(DropOldest))
    && q'.counters == Counters(q.counters.acceptedRecords + 1, q.counters.acceptedBytes + |rec.line|,
                               q.counters.droppedRecords + k,
                               q.counters.droppedBytes + Bytes(q.contents[..k]))
    && (k > 0 ==> !Fits(q.cfg, q.contents[k - 1..] + [rec]))
  }

  lemma AcceptAdmits(q: QueueState, meta: RecordMeta, line: bytes)
    requires ValidState(q) && !q.closed
    ensures Admits(q, Accept(q, meta, line), 0, FromMeta(meta, line, q.nextSeq))
  {
    assert q.contents[0..] == q.contents;
  }

  lemma NoRoomMeansUnfit(q: QueueState, rs: seq<Record>, rec: Record)
    requires !HasCapacity(q.(contents := rs), |rec.line|)
    ensures !Fits(q.cfg, rs + [rec])
  {
    BytesSnoc(rs, rec);
  }

  lemma EvictedThenAccepted(q: QueueState, e: QueueState, k: nat, meta: RecordMeta, line: bytes)
    requires ValidState(q) && !q.closed && Evicts(q, e, k) && HasCapacity(e, |line|)
    requires k > 0 ==> !HasCapacity(q.(contents := q.contents[k - 1..]), |line|)
    ensures Admits(q, Accept(e, meta, line), k, FromMeta(meta, line, q.nextSeq))
    ensures k == |q.contents| + 1 - |Accept(e, meta, line).contents|
  {
    var rec := FromMeta(meta, line, q.nextSeq);
    if k > 0 {
      NoRoomMeansUnfit(q, q.contents[k - 1..], rec);
    }
  }

  // An accepted push appends the record, numbered, after dropping the k records that stood in its way.
  lemma AcceptedPush(q: QueueState, meta: RecordMeta, line: bytes)
    requires ValidState(q) && Push(q, meta, line).1 == Accepted
    ensures var q' := Push(q, meta, line).0;
            var k := |q.contents| + 1 - |q'.contents|;
            && !q.closed
            && Admits(q, q', k, FromMeta(meta, line, q.nextSeq))
            && (k > 0 ==> q.cfg.overflow == DropOldest)
  {
    if HasCapacity(q, |line|) {
      AcceptAdmits(q, meta, line);
    } else {
      var k := EvictForDropsLeast(q, |line|);
      EvictedThenAccepted(q, EvictFor(q, |line|), k, meta, line);
    }
  }

  // A push that an open queue refuses is tallied and changes nothing else; no signal is sent.
  lemma RefusedPush(q: QueueState, meta: RecordMeta, line: bytes)
    requires ValidState(q) && Push(q, meta, line).1 == Refused && !q.closed
    ensures Push(q, meta, line).0 == CountDrop(q, |line|, q.cfg.overflow)
    ensures q.cfg.overflow != Block
    ensures |q.contents| >= q.cfg.maxRecords || Bytes(q.contents) + |line| > q.cfg.maxBytes
    ensures |line| <= q.cfg.maxBytes ==> q.cfg.overflow == DropNewest && q.contents != []
  {
    if q.cfg.overflow == DropOldest {
      DropOldestAcceptsIffFits(q, meta, line);
    }
  }

  // With one record more both caps would still hold.
  ghost predicate HasRoomFor(q: QueueState, rec: Record) {
    Fits(q.cfg, q.contents + [rec])
  }

  // Which pushes are accepted, which wait and which are refused.
  lemma PushOutcome(q: QueueState, meta: RecordMeta, line: bytes)
    requires ValidState(q)
    ensures var r, room := Push(q, meta, line).1, HasRoomFor(q, FromMeta(meta, line, q.nextSeq));
            && (r == Accepted <==> !q.closed && (room || (q.cfg.overflow == DropOldest && |line| <= q.cfg.maxBytes)))
            && (r == MustWait <==> !q.closed && !room && q.cfg.overflow == Block)
            && (r == Refused <==> q.closed || (!room && (q.cfg.overflow == DropNewest
                                                         || (q.cfg.overflow == DropOldest && |line| > q.cfg.maxBytes))))
  {
    BytesSnoc(q.contents, FromMeta(meta, line, q.nextSeq));
    if !q.closed && q.cfg.overflow == DropOldest {
      DropOldestAcceptsIffFits(q, meta, line);
    }
  }

  // A diagnostic gets in exactly if the queue is open and has room for it; it is numbered and signalled like
  // a record, and nothing else changes, least of all the drops.
  lemma PushInternalOutcome(q: QueueState, rec: Record)
    requires ValidState(q)
    ensures var (q', accepted) := PushInternal(q, rec);
            && (accepted <==> !q.closed && HasRoomFor(q, rec))
            && q' == if accepted then q.(contents := q.contents + [rec.(seqNo := q.nextSeq)], nextSeq := q.nextSeq + 1,
                                         wake := Wake(true, false))
                     else q
  {
    BytesSnoc(q.contents, rec);
  }

  // A push that is not accepted leaves the contents and the numbering alone.
  lemma UnacceptedPush(q: QueueState, meta: RecordMeta, line: bytes)
    requires ValidState(q) && Push(q, meta, line).1 != Accepted
    ensures var q' := Push(q, meta, line).0;
            q'.contents == q.contents && q'.nextSeq == q.nextSeq && q'.cfg == q.cfg && q'.wake == q.wake
  {
    if Push(q, meta, line).1 == Refused && !q.closed {
      RefusedPush(q, meta, line);
    }
  }

  // The lost records and bytes of one push: k evicted, or the refused line itself, or none.
  ghost predicate Tallies(q: QueueState, q': QueueState, records: int, size: int) {
    && q'.counters.droppedRecords == q.counters.droppedRecords + records
    && q'.counters.droppedBytes == q.counters.droppedBytes + size
    && q'.drops.records == q.drops.records + records
    && q'.drops.bytes == q.drops.bytes + size
  }

  lemma PushTallies(q: QueueState, meta: RecordMeta, line: bytes)
    requires ValidState(q)
    ensures var (q', r) := Push(q, meta, line);
            var k := |q.contents| + 1 - |q'.contents|;
            && q'.cfg == q.cfg
            && (r == Accepted ==> 0 <= k <= |q.contents| && Tallies(q, q', k, Bytes(q.contents[..k]))
                                  && (k > 0 ==> q.cfg.overflow == DropOldest))
            && (r == Refused && !q.closed ==> Tallies(q, q', 1, |line|) && q.cfg.overflow != Block)
            && (r == MustWait || q.closed ==> q' == q)
  {
    PushKeepsValid(q, meta, line);
    var r := Push(q, meta, line).1;
    if r == Accepted {
      AcceptedPush(q, meta, line);
    } else if r == Refused && !q.closed {
      RefusedPush(q, meta, line);
    }
  }

  // Every critical section keeps the bounds, and no section reopens a closed queue.
  lemma PushKeepsValid(q: QueueState, meta: RecordMeta, line: bytes)
    requires ValidState(q)
    ensures ValidState(Push(q, meta, line).0)
    ensures Push(q, meta, line).0.closed == q.closed
    ensures Push(q, meta, line).0.cfg == q.cfg
  {
    if q.closed {
    } else if HasCapacity(q, |line|) {
      BytesSnoc(q.contents, FromMeta(meta, line, q.nextSeq));
    } else if q.cfg.overflow == DropOldest && |line| <= q.cfg.maxBytes {
      var k := EvictForDropsLeast(q, |line|);
      var e := EvictFor(q, |line|);
      EvictForKeeps(q, |line|);
      BytesSnoc(e.contents, FromMeta(meta, line, e.nextSeq));
    }
  }

  lemma PushInternalKeepsValid(q: QueueState, rec: Record)
    requires ValidState(q)
    ensures ValidState(PushInternal(q, rec).0)
  {
    BytesSnoc(q.contents, rec.(seqNo := q.nextSeq));
  }

  lemma PopKeepsValid(q: QueueState)
    requires ValidState(q)
    ensures ValidState(Pop(q).0)
  {
    if q.contents != [] {
      BytesHead(q.contents);
    }
  }
}
