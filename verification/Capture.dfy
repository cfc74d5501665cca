/** Chunk reader, buffer pool and framer running together (capture.go, framer.go) under any schedule. */
module Capture {
  import opened LogRecords
  import C = ChunkPool
  import F = FramerSpec
  import Fr = Framer

  // A turn of one goroutine. In a reader turn that performs a Read, the buffer is filled with scratch and
  // the first n bytes are reported together with err. TimerTurn is the framer taking its timer case.
  datatype Turn = ReaderTurn(scratch: bytes, n: nat, err: C.ReadError) | FramerTurn | TimerTurn

  ghost predicate Possible(t: Turn, chunkSize: nat) {
    t.ReaderTurn? ==> |t.scratch| == chunkSize && t.n <= chunkSize
  }

  // The framer's memory is not part of the pool.
  ghost predicate Apart(pool: C.Pool, f: Fr.Framer)
    reads f
  {
    f.store !in pool.all && forall o :: o in f.Lines() ==> o !in pool.all
  }

  // The framer has seen exactly these bytes, and has pushed what is left of them if it is done.
  ghost predicate HasSeen(f: Fr.Framer, consumed: bytes, done: bool)
    reads f, f.store, f.Lines()
  {
    && F.StreamOf(f.history) == consumed
    && if done then f.Separate() && f.Abs() == F.Finish(F.Replay(f.history, f.maxFragmentBytes)) else f.Valid()
  }

  ghost predicate Together(pool: C.Pool, f: Fr.Framer)
    reads pool, pool.all, f, f.store, f.Lines()
  {
    && pool.Valid() && Apart(pool, f)
    && HasSeen(f, pool.consumed, pool.framer.Finished?)
  }

  // The framer's part of a turn.
  method Digest(f: Fr.Framer, ghost consumed: bytes, data: bytes, done: bool)
    requires HasSeen(f, consumed, false)
    modifies f, f.store
    ensures HasSeen(f, consumed + data, done)
    ensures f.store == old(f.store) || fresh(f.store)
    ensures old(f.pushed) <= f.pushed && forall i :: |old(f.pushed)| <= i < |f.pushed| ==> fresh(f.pushed[i].line)
  {
    hide F.StreamOf, F.Replay, F.Finish;
    F.StreamOfArrivals(f.history, data);
    if data != [] {
      f.HandleChunk(data);
    } else {
      assert F.Arrivals([]) == [];
      assert f.history + [] == f.history;
    }
    if done {
      f.EmitEOF();
    }
  }

  // The timer case of the framer's select.
  method Expire(f: Fr.Framer, ghost consumed: bytes)
    requires HasSeen(f, consumed, false) && f.timerArmed
    modifies f
    ensures HasSeen(f, consumed, false) && f.store == old(f.store) && f.history == old(f.history) + [F.Idle]
    ensures old(f.pushed) <= f.pushed && forall i :: |old(f.pushed)| <= i < |f.pushed| ==> fresh(f.pushed[i].line)
  {
    hide F.StreamOf, F.Replay, F.Finish;
    F.StreamOfIdle(f.history);
    f.HandleTimeout();
  }

  method ReaderSide(pool: C.Pool, f: Fr.Framer, t: Turn)
    requires Together(pool, f) && t.ReaderTurn? && Possible(t, pool.chunkSize)
    modifies pool, pool.all
    ensures Together(pool, f)
    ensures pool.reports == if old(pool.reader).Filling? then old(pool.reports) + [t.err] else old(pool.reports)
    ensures pool.read == if old(pool.reader).Filling? then old(pool.read) + t.scratch[..t.n] else old(pool.read)
    ensures old(pool.ReaderWaits()) || old(pool.reader).Exited? <==> pool.reader == old(pool.reader)
  {
    hide HasSeen, C.Pool.Valid;
    ghost var consumed, done := pool.consumed, pool.framer.Finished?;
    pool.ReaderTurn(t.scratch, t.n, t.err);
    assert f.Lines() == old(f.Lines());
    assert HasSeen(f, consumed, done);
  }

  // The framer's turn. What it consumes it cuts into records; at the end it pushes what is left.
  method FramerSide(pool: C.Pool, f: Fr.Framer)
    requires Together(pool, f)
    modifies pool, f, f.store
    ensures Together(pool, f) && (f.store == old(f.store) || fresh(f.store)) && old(f.pushed) <= f.pushed
    ensures old(pool.FramerWaits()) || old(pool.framer).Finished? <==> pool.framer == old(pool.framer)
  {
    hide C.Pool.Valid, HasSeen;
    if pool.framer.Finished? {
      return;
    }
    ghost var consumed := pool.consumed;
    var data := pool.FramerTurn();
    Digest(f, consumed, data, pool.framer.Finished?);
  }

  // The timer case, open only while the framer waits for a chunk.
  method TimerSide(pool: C.Pool, f: Fr.Framer)
    requires Together(pool, f)
    modifies f
    ensures Together(pool, f) && f.store == old(f.store) && old(f.pushed) <= f.pushed
    ensures f.history == old(f.history) + if pool.framer.Receiving? && old(f.timerArmed) then [F.Idle] else []
  {
    hide C.Pool.Valid, HasSeen;
    assert f.history + [] == f.history;
    if pool.framer.Receiving? && f.timerArmed {
      Expire(f, pool.consumed);
    }
  }

  // StartChunkReader and runFramer.
  method Start(chunkSize: nat, maxFragmentBytes: nat, partialFlushInterval: nat) returns (pool: C.Pool, f: Fr.Framer)
    requires maxFragmentBytes > 0
    ensures Together(pool, f) && fresh(pool) && fresh(f) && pool.read == [] && f.pushed == []
    ensures pool.chunkSize == chunkSize && f.maxFragmentBytes == maxFragmentBytes
    ensures pool.reader == C.Taking && pool.framer == C.Receiving
  {
    pool := new C.Pool(chunkSize);
    f := new Fr.Framer(maxFragmentBytes, partialFlushInterval);
  }

  // When both goroutines are done, the framer has seen all the bytes that were read, the lines pushed give
  // them back, and every buffer is free again. The reader has read until a Read reported the end or an error,
  // and the framer returns that error.
  lemma WhenBothAreDone(pool: C.Pool, f: Fr.Framer)
    requires Together(pool, f) && pool.reader.Exited? && pool.framer.Finished?
    ensures F.StreamOf(f.history) == pool.read
    ensures f.len <= f.store.Length && f.Abs() == F.Finish(F.Replay(f.history, f.maxFragmentBytes))
    ensures F.Rebuild(f.Out()) == F.Normalized(f.history)
    ensures multiset(pool.free) == multiset(pool.all)
    ensures pool.reports != [] && pool.framer == C.Finished(pool.reports[|pool.reports| - 1] == C.Broken)
    ensures forall i :: 0 <= i < |pool.reports| ==> (pool.reports[i] == C.NoError <==> i < |pool.reports| - 1)
  {
    hide C.Pool.Valid, F.StreamOf, F.Replay, F.Finish, F.Rebuild, F.Normalized;
    C.ReadsUntilTheEnd(pool);
    C.DoneMeansDelivered(pool);
    F.FinishedStreamIsRebuilt(f.history, f.maxFragmentBytes);
  }

  // Each turn happens, unless the goroutine is waiting or done.
  method TakeTurn(pool: C.Pool, f: Fr.Framer, t: Turn)
    requires Together(pool, f) && Possible(t, pool.chunkSize)
    modifies pool, pool.all, f, f.store
    ensures Together(pool, f) && (f.store == old(f.store) || fresh(f.store)) && old(f.pushed) <= f.pushed
    ensures t.ReaderTurn? && old(pool.reader).Filling? ==>
              pool.reports == old(pool.reports) + [t.err] && pool.read == old(pool.read) + t.scratch[..t.n]
    ensures t.ReaderTurn? ==> (old(pool.ReaderWaits()) || old(pool.reader).Exited? <==> pool.reader == old(pool.reader))
    ensures t.FramerTurn? ==> (old(pool.FramerWaits()) || old(pool.framer).Finished? <==> pool.framer == old(pool.framer))
    ensures t.TimerTurn? ==>
              f.history == old(f.history) + if old(pool.framer).Receiving? && old(f.timerArmed) then [F.Idle] else []
  {
    hide *;
    match t {
      case ReaderTurn(_, _, _) => ReaderSide(pool, f, t);
      case FramerTurn => FramerSide(pool, f);
      case TimerTurn => TimerSide(pool, f);
    }
  }

  // Both goroutines under any schedule: at every point the framer has seen exactly the bytes consumed from
  // the pool, and no line shares memory with a buffer.
  method Run(pool: C.Pool, f: Fr.Framer, schedule: seq<Turn>)
    requires Together(pool, f) && forall t :: t in schedule ==> Possible(t, pool.chunkSize)
    modifies pool, pool.all, f, f.store
    ensures Together(pool, f) && old(f.pushed) <= f.pushed
  {
    hide *;
    for i := 0 to |schedule|
      invariant Together(pool, f) && (f.store == old(f.store) || fresh(f.store)) && old(f.pushed) <= f.pushed
    {
      TakeTurn(pool, f, schedule[i]);
    }
  }
}
