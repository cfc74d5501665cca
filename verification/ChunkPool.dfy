/**
 capture.go with the receiving end of framer.go: two goroutines share seventeen read buffers through a free
 list and a chunk channel. Every action of either goroutine is one method; a schedule interleaves them.
 */
module ChunkPool {
  import opened LogRecords

  const CHANNEL_SIZE := 16
  const POOL_SIZE := CHANNEL_SIZE + 1

  // What a Read reports besides the bytes.
  datatype ReadError = NoError | EndOfInput | Broken

  datatype Chunk = Chunk(buf: array<byte>, n: nat)

  datatype Result = Data(chunk: Chunk) | Failure

  datatype ReaderState =
    | Taking                                // buf := <-free
    | Filling(buf: array<byte>)             // r.Read(buf)
    | Sending(chunk: Chunk, err: ReadError) // ch <- chunk
    | PuttingBack(buf: array<byte>, err: ReadError)
    | SendingError
    | Closing
    | Exited

  datatype FramerState =
    | Receiving
    | Consuming(chunk: Chunk)
    | Releasing(buf: array<byte>)
    | Finished(failed: bool)                // run has returned res.err, or nil

  // What the reader does once the bytes of a Read have been passed on.
  function AfterRead(err: ReadError): ReaderState {
    match err
    case NoError => Taking
    case EndOfInput => Closing
    case Broken => SendingError
  }

  function Chunks(rs: seq<Result>): seq<Chunk> {
    if rs == [] then []
    else (if rs[0].Data? then [rs[0].chunk] else []) + Chunks(rs[1..])
  }

  function Bufs(cs: seq<Chunk>): (bs: seq<array<byte>>)
    ensures |bs| == |cs| && forall i :: 0 <= i < |cs| ==> bs[i] == cs[i].buf
  {
    seq(|cs|, i requires 0 <= i < |cs| => cs[i].buf)
  }

  lemma {:induction false} ChunksSnoc(rs: seq<Result>, r: Result)
    ensures Chunks(rs + [r]) == Chunks(rs) + (if r.Data? then [r.chunk] else [])
  {
    if rs == [] {
      assert Chunks([]) == [] && [r][1..] == [] && [] + [r] == [r];
    } else {
      ChunksSnoc(rs[1..], r);
      ChunksCons(rs[0], rs[1..]);
      ChunksCons(rs[0], rs[1..] + [r]);
      hide Chunks;
      assert [rs[0]] + rs[1..] == rs && [rs[0]] + (rs[1..] + [r]) == rs + [r];
    }
  }

  lemma ChunksCons(r: Result, rs: seq<Result>)
    ensures Chunks([r] + rs) == (if r.Data? then [r.chunk] else []) + Chunks(rs)
  {
    assert ([r] + rs)[1..] == rs;
  }

  lemma {:induction false} FlattenBound(parts: seq<bytes>, size: nat)
    requires forall i :: 0 <= i < |parts| ==> |parts[i]| <= size
    ensures |Flatten(parts)| <= |parts| * size
  {
    if parts != [] {
      FlattenBound(parts[1..], size);
    }
  }

  // The buffers the reader has in hand.
  function ReaderHolds(reader: ReaderState): seq<array<byte>> {
    match reader
    case Filling(buf) => [buf]
    case Sending(chunk, _) => [chunk.buf]
    case PuttingBack(buf, _) => [buf]
    case _ => []
  }

  function FramerHolds(framer: FramerState): seq<array<byte>> {
    match framer
    case Consuming(chunk) => [chunk.buf]
    case Releasing(buf) => [buf]
    case _ => []
  }

  // The chunks read and not yet consumed, oldest first.
  function Pending(framer: FramerState, chunks: seq<Chunk>, reader: ReaderState): seq<Chunk> {
    (if framer.Consuming? then [framer.chunk] else []) + chunks + (if reader.Sending? then [reader.chunk] else [])
  }

  function Owners(free: seq<array<byte>>, chunks: seq<Chunk>, reader: ReaderState, framer: FramerState): multiset<array<byte>> {
    multiset(free) + multiset(Bufs(chunks)) + multiset(ReaderHolds(reader)) + multiset(FramerHolds(framer))
  }

  // Every buffer is in exactly one place: the free list, the channel, the reader or the framer.
  ghost predicate OnePlaceEach(all: seq<array<byte>>, free: seq<array<byte>>, chunks: seq<Chunk>, reader: ReaderState,
                               framer: FramerState)
  {
    && |all| == POOL_SIZE
    && (forall b :: b in all ==> multiset(all)[b] == 1)
    && Owners(free, chunks, reader, framer) == multiset(all)
  }

  // No pending chunk has been overwritten since it was read.
  ghost predicate Intact(all: seq<array<byte>>, pending: seq<Chunk>, inFlight: seq<bytes>)
    reads all
  {
    && |inFlight| == |pending|
    && (forall i :: 0 <= i < |pending| ==>
          pending[i].buf in all && pending[i].n <= pending[i].buf.Length && pending[i].buf[..pending[i].n] == inFlight[i])
  }

  // A failure is the last thing sent, and the framer ends only after it or after the close.
  predicate OrderOk(ch: seq<Result>, reader: ReaderState, framer: FramerState) {
    && |ch| <= CHANNEL_SIZE
    && (forall i :: 0 <= i < |ch| && ch[i].Failure? ==> i == |ch| - 1 && (reader.Closing? || reader.Exited?))
    && (framer.Finished? ==> ch == [] && (reader.Closing? || reader.Exited?))
  }

  function LastReport(reports: seq<ReadError>): ReadError {
    if reports == [] then NoError else reports[|reports| - 1]
  }

  predicate HasStopped(reader: ReaderState) {
    reader.Closing? || reader.Exited?
  }

  // The reader goes on until a Read reports something, and a failure is passed on if and only if that was one.
  ghost predicate ReportsOk(reports: seq<ReadError>, ch: seq<Result>, reader: ReaderState, framer: FramerState) {
    && (forall i :: 0 <= i < |reports| - 1 ==> reports[i] == NoError)
    && (reader.Taking? || reader.Filling? ==> LastReport(reports) == NoError)
    && (reader.Sending? || reader.PuttingBack? ==> reader.err == LastReport(reports))
    && (reader.SendingError? ==> LastReport(reports) == Broken)
    && (HasStopped(reader) ==> LastReport(reports) != NoError)
    && (Failure in ch || framer == Finished(true) <==> LastReport(reports) == Broken && HasStopped(reader))
  }

  /* ---- One lemma for each way a buffer changes hands ---- */

  lemma TakeKeeps(all: seq<array<byte>>, free: seq<array<byte>>, chunks: seq<Chunk>, framer: FramerState)
    requires OnePlaceEach(all, free, chunks, Taking, framer) && free != []
    ensures OnePlaceEach(all, free[1..], chunks, Filling(free[0]), framer) && free[0] in all
  {
    assert free == [free[0]] + free[1..];
    assert free[0] in Owners(free, chunks, Taking, framer);
  }

  // A step after which the goroutines hold the same buffers.
  lemma SameHolders(all: seq<array<byte>>, free: seq<array<byte>>, chunks: seq<Chunk>, reader: ReaderState,
                    framer: FramerState, reader': ReaderState, framer': FramerState)
    requires OnePlaceEach(all, free, chunks, reader, framer)
    requires ReaderHolds(reader') == ReaderHolds(reader) && FramerHolds(framer') == FramerHolds(framer)
    ensures OnePlaceEach(all, free, chunks, reader', framer')
  {
    hide Bufs, ReaderHolds, FramerHolds;
  }

  lemma PutBackKeeps(all: seq<array<byte>>, free: seq<array<byte>>, chunks: seq<Chunk>, buf: array<byte>,
                     err: ReadError, framer: FramerState)
    requires OnePlaceEach(all, free, chunks, PuttingBack(buf, err), framer)
    ensures OnePlaceEach(all, free + [buf], chunks, AfterRead(err), framer)
  {
    hide Bufs, FramerHolds;
    assert multiset(free + [buf]) == multiset(free) + multiset([buf]);
    assert ReaderHolds(AfterRead(err)) == [];
  }

  lemma ReleaseKeeps(all: seq<array<byte>>, free: seq<array<byte>>, chunks: seq<Chunk>, reader: ReaderState,
                     buf: array<byte>)
    requires OnePlaceEach(all, free, chunks, reader, Releasing(buf))
    ensures OnePlaceEach(all, free + [buf], chunks, reader, Receiving)
  {
    hide Bufs, ReaderHolds;
    assert multiset(free + [buf]) == multiset(free) + multiset([buf]);
  }

  lemma SendKeeps(all: seq<array<byte>>, free: seq<array<byte>>, chunks: seq<Chunk>, c: Chunk, err: ReadError,
                  framer: FramerState)
    requires OnePlaceEach(all, free, chunks, Sending(c, err), framer)
    ensures OnePlaceEach(all, free, chunks + [c], AfterRead(err), framer)
  {
    BufsSnoc(chunks, c);
    hide Bufs, FramerHolds;
    assert multiset(Bufs(chunks + [c])) == multiset(Bufs(chunks)) + multiset([c.buf]);
    assert ReaderHolds(AfterRead(err)) == [];
  }

  lemma ReceiveKeeps(all: seq<array<byte>>, free: seq<array<byte>>, c: Chunk, chunks: seq<Chunk>, reader: ReaderState)
    requires OnePlaceEach(all, free, [c] + chunks, reader, Receiving)
    ensures OnePlaceEach(all, free, chunks, reader, Consuming(c))
  {
    BufsCons(c, chunks);
    hide Bufs, ReaderHolds;
    assert multiset(Bufs([c] + chunks)) == multiset([c.buf]) + multiset(Bufs(chunks));
  }

  lemma BufsSnoc(cs: seq<Chunk>, c: Chunk)
    ensures Bufs(cs + [c]) == Bufs(cs) + [c.buf]
  {
  }

  lemma BufsCons(c: Chunk, cs: seq<Chunk>)
    ensures Bufs([c] + cs) == [c.buf] + Bufs(cs)
  {
  }

  // Handing a chunk over does not change the pending sequence.
  lemma SendPending(framer: FramerState, chunks: seq<Chunk>, c: Chunk, err: ReadError)
    ensures Pending(framer, chunks + [c], AfterRead(err)) == Pending(framer, chunks, Sending(c, err))
  {
  }

  lemma FillPending(framer: FramerState, chunks: seq<Chunk>, c: Chunk, err: ReadError)
    ensures Pending(framer, chunks, Sending(c, err)) == Pending(framer, chunks, Filling(c.buf)) + [c]
  {
  }

  lemma ReceivePending(c: Chunk, chunks: seq<Chunk>, reader: ReaderState)
    ensures Pending(Consuming(c), chunks, reader) == Pending(Receiving, [c] + chunks, reader)
  {
  }

  lemma ConsumePending(c: Chunk, chunks: seq<Chunk>, reader: ReaderState)
    ensures Pending(Consuming(c), chunks, reader) == [c] + Pending(Releasing(c.buf), chunks, reader)
  {
  }

  // Other steps touch no pending chunk.
  lemma SamePending(framer: FramerState, chunks: seq<Chunk>, reader: ReaderState, framer': FramerState, reader': ReaderState)
    requires if framer.Consuming? then framer' == framer else !framer'.Consuming?
    requires if reader.Sending? then reader' == reader else !reader'.Sending?
    ensures Pending(framer', chunks, reader') == Pending(framer, chunks, reader)
  {
  }

  lemma ChunksHead(rs: seq<Result>)
    ensures rs != [] && rs[0].Data? ==> Chunks(rs) == [rs[0].chunk] + Chunks(rs[1..])
    ensures rs != [] && rs[0].Failure? ==> Chunks(rs) == Chunks(rs[1..])
  {
    if rs != [] && rs[0].Failure? {
      assert [] + Chunks(rs[1..]) == Chunks(rs[1..]);
    }
  }

  // Seventeen buffers, counted where they are.
  lemma Census(all: seq<array<byte>>, free: seq<array<byte>>, chunks: seq<Chunk>, reader: ReaderState,
               framer: FramerState)
    requires OnePlaceEach(all, free, chunks, reader, framer)
    ensures |free| + |chunks| + |ReaderHolds(reader)| + |FramerHolds(framer)| == POOL_SIZE
  {
    assert |Owners(free, chunks, reader, framer)| == |multiset(all)|;
  }

  // The buffer the reader fills belongs to no pending chunk.
  lemma {:induction false} OnlyOwner(all: seq<array<byte>>, free: seq<array<byte>>, chunks: seq<Chunk>, buf: array<byte>,
                                     framer: FramerState, i: nat)
    requires OnePlaceEach(all, free, chunks, Filling(buf), framer) && i < |Pending(framer, chunks, Filling(buf))|
    ensures Pending(framer, chunks, Filling(buf))[i].buf != buf
  {
    FillingIsOurs(all, free, chunks, buf, framer);
    assert multiset(ReaderHolds(Filling(buf)))[buf] == 1;
    if framer.Consuming? && i == 0 {
      assert framer.chunk.buf == buf ==> multiset(FramerHolds(framer))[buf] == 1;
    } else {
      var j := if framer.Consuming? then i - 1 else i;
      assert Bufs(chunks)[j] in multiset(Bufs(chunks));
    }
  }

  lemma IntactHead(all: seq<array<byte>>, c: Chunk, rest: seq<Chunk>, inFlight: seq<bytes>)
    requires Intact(all, [c] + rest, inFlight)
    ensures inFlight != [] && c.n <= c.buf.Length && c.buf[..c.n] == inFlight[0]
    ensures Intact(all, rest, inFlight[1..])
  {
    assert ([c] + rest)[0] == c;
    assert forall i :: 0 <= i < |rest| ==> ([c] + rest)[i + 1] == rest[i];
  }

  lemma FillingIsOurs(all: seq<array<byte>>, free: seq<array<byte>>, chunks: seq<Chunk>, buf: array<byte>, framer: FramerState)
    requires OnePlaceEach(all, free, chunks, Filling(buf), framer)
    ensures buf in all
  {
    assert buf in multiset(ReaderHolds(Filling(buf)));
    assert buf in multiset(all);
  }

  class Pool {
    const chunkSize: nat
    ghost const all: seq<array<byte>>

    var free: seq<array<byte>>
    var ch: seq<Result>
    var reader: ReaderState
    var framer: FramerState

    ghost var inFlight: seq<bytes>   // the bytes of each pending chunk when it was read
    ghost var read: bytes            // everything Read has reported
    ghost var consumed: bytes        // everything the framer has copied out
    ghost var reports: seq<ReadError>  // what each Read has reported

    ghost predicate Valid()
      reads this, all
    {
      && (forall b :: b in all ==> b.Length == chunkSize)
      && OnePlaceEach(all, free, Chunks(ch), reader, framer)
      && Intact(all, Pending(framer, Chunks(ch), reader), inFlight)
      && OrderOk(ch, reader, framer)
      && ReportsOk(reports, ch, reader, framer)
      && read == consumed + Flatten(inFlight)
    }

    // A fresh pool: all buffers are free.
    constructor (chunkSize: nat)
      ensures Valid() && reader == Taking && framer == Receiving && read == [] && consumed == [] && reports == []
      ensures this.chunkSize == chunkSize && multiset(free) == multiset(all) && fresh(all)
    {
      var bufs: seq<array<byte>> := [];
      for i := 0 to POOL_SIZE
        invariant |bufs| == i && fresh(bufs)
        invariant forall b :: b in bufs ==> b.Length == chunkSize && multiset(bufs)[b] == 1
      {
        var b := new byte[chunkSize];
        assert b !in bufs;
        bufs := bufs + [b];
      }
      this.chunkSize := chunkSize;
      free, all := bufs, bufs;
      ch, reader, framer := [], Taking, Receiving;
      inFlight, read, consumed, reports := [], [], [], [];
    }

    // buf := <-free
    method Take()
      requires Valid() && reader.Taking? && free != []
      modifies this`free, this`reader
      ensures Valid() && reader == Filling(old(free)[0]) && free == old(free)[1..]
    {
      hide OnePlaceEach, Intact, Chunks, Flatten, Pending;
      TakeKeeps(all, free, Chunks(ch), framer);
      SamePending(framer, Chunks(ch), reader, framer, Filling(free[0]));
      reader, free := Filling(free[0]), free[1..];
    }

    static method Overwrite(buf: array<byte>, scratch: bytes)
      requires buf.Length == |scratch|
      modifies buf
      ensures buf[..] == scratch
    {
      for i := 0 to |scratch|
        invariant buf[..i] == scratch[..i]
      {
        buf[i] := scratch[i];
      }
    }

    // r.Read(buf): the buffer is scratch for the call; its first n bytes are the result.
    method Fill(scratch: bytes, n: nat, err: ReadError)
      requires Valid() && reader.Filling? && |scratch| == chunkSize && n <= chunkSize
      modifies this`reader, this`read, this`inFlight, this`reports, reader.buf
      ensures Valid() && read == old(read) + scratch[..n] && reports == old(reports) + [err]
      ensures reader == if n > 0 then Sending(Chunk(old(reader).buf, n), err) else PuttingBack(old(reader).buf, err)
    {
      hide OnePlaceEach, Chunks, Flatten, Pending;
      var buf := reader.buf;
      FillingIsOurs(all, free, Chunks(ch), buf, framer);
      forall i | 0 <= i < |Pending(framer, Chunks(ch), reader)| ensures Pending(framer, Chunks(ch), reader)[i].buf != buf {
        OnlyOwner(all, free, Chunks(ch), buf, framer, i);
      }
      Overwrite(buf, scratch);
      assert buf[..n] == scratch[..n];
      ghost var chunk := Chunk(buf, n);
      if n > 0 {
        SameHolders(all, free, Chunks(ch), reader, framer, Sending(chunk, err), framer);
        FillPending(framer, Chunks(ch), chunk, err);
        FlattenSnoc(inFlight, scratch[..n]);
        Assoc(consumed, Flatten(inFlight), scratch[..n]);
        reader, inFlight := Sending(Chunk(buf, n), err), inFlight + [scratch[..n]];
      } else {
        SameHolders(all, free, Chunks(ch), reader, framer, PuttingBack(buf, err), framer);
        SamePending(framer, Chunks(ch), reader, framer, PuttingBack(buf, err));
        assert read + [] == read;
        reader := PuttingBack(buf, err);
      }
      read, reports := read + scratch[..n], reports + [err];
    }

    // ch <- chunk
    method Send()
      requires Valid() && reader.Sending? && |ch| < CHANNEL_SIZE
      modifies this`ch, this`reader
      ensures Valid() && ch == old(ch) + [Data(old(reader).chunk)] && reader == AfterRead(old(reader).err)
    {
      hide OnePlaceEach, Intact, Chunks, Flatten, Pending;
      ChunksSnoc(ch, Data(reader.chunk));
      SendKeeps(all, free, Chunks(ch), reader.chunk, reader.err, framer);
      SendPending(framer, Chunks(ch), reader.chunk, reader.err);
      ch, reader := ch + [Data(reader.chunk)], AfterRead(reader.err);
    }

    // free <- buf, after a Read without bytes: the list has room.
    method PutBack()
      requires Valid() && reader.PuttingBack?
      modifies this`free, this`reader
      ensures Valid() && |old(free)| < POOL_SIZE
      ensures free == old(free) + [old(reader).buf] && reader == AfterRead(old(reader).err)
    {
      hide OnePlaceEach, Intact, Chunks, Flatten, Pending;
      Census(all, free, Chunks(ch), reader, framer);
      PutBackKeeps(all, free, Chunks(ch), reader.buf, reader.err, framer);
      SamePending(framer, Chunks(ch), reader, framer, AfterRead(reader.err));
      free, reader := free + [reader.buf], AfterRead(reader.err);
    }

    // ch <- chunkResult{err: err}
    method SendError()
      requires Valid() && reader.SendingError? && |ch| < CHANNEL_SIZE
      modifies this`ch, this`reader
      ensures Valid() && ch == old(ch) + [Failure] && reader == Closing
    {
      hide OnePlaceEach, Intact, Chunks, Flatten, Pending;
      ChunksSnoc(ch, Failure);
      assert Chunks(ch) + [] == Chunks(ch);
      SameHolders(all, free, Chunks(ch), reader, framer, Closing, framer);
      SamePending(framer, Chunks(ch), reader, framer, Closing);
      ch, reader := ch + [Failure], Closing;
    }

    // close(ch)
    method CloseChannel()
      requires Valid() && reader.Closing?
      modifies this`reader
      ensures Valid() && reader == Exited
    {
      hide OnePlaceEach, Intact, Chunks, Flatten, Pending;
      SameHolders(all, free, Chunks(ch), reader, framer, Exited, framer);
      SamePending(framer, Chunks(ch), reader, framer, Exited);
      reader := Exited;
    }

    // res, ok := <-chunks, a chunk
    method ReceiveChunk()
      requires Valid() && framer.Receiving? && ch != [] && ch[0].Data?
      modifies this`ch, this`framer
      ensures Valid() && ch == old(ch)[1..] && framer == Consuming(old(ch)[0].chunk)
    {
      ChunksHead(ch);
      hide OnePlaceEach, Intact, Chunks, Flatten, Pending;
      ReceiveKeeps(all, free, ch[0].chunk, Chunks(ch[1..]), reader);
      ReceivePending(ch[0].chunk, Chunks(ch[1..]), reader);
      ch, framer := ch[1..], Consuming(ch[0].chunk);
    }

    // res, ok := <-chunks, the error or the end
    method ReceiveEnd()
      requires Valid() && framer.Receiving? && if ch == [] then reader.Exited? else ch[0].Failure?
      modifies this`ch, this`framer
      ensures Valid() && ch == [] && framer == Finished(old(ch) != [])
    {
      ChunksHead(ch);
      hide OnePlaceEach, Intact, Chunks, Flatten, Pending;
      var end := Finished(ch != []);
      SameHolders(all, free, Chunks(ch), reader, framer, reader, end);
      SamePending(framer, Chunks(ch), reader, end, reader);
      ch, framer := if ch == [] then [] else ch[1..], end;
    }

    // f.consume(res.data) copies the bytes, and they are the ones that were read.
    method Consume() returns (data: bytes)
      requires Valid() && framer.Consuming?
      modifies this`framer, this`consumed, this`inFlight
      ensures Valid() && consumed == old(consumed) + data && old(inFlight) == [data] + inFlight
      ensures framer == Releasing(old(framer).chunk.buf)
    {
      hide OnePlaceEach, Chunks, Pending, Intact;
      ghost var chunk := framer.chunk;
      SameHolders(all, free, Chunks(ch), reader, framer, reader, Releasing(chunk.buf));
      ConsumePending(chunk, Chunks(ch), reader);
      IntactHead(all, chunk, Pending(Releasing(chunk.buf), Chunks(ch), reader), inFlight);
      data := framer.chunk.buf[..framer.chunk.n];
      assert inFlight == [data] + inFlight[1..];
      Assoc(consumed, data, Flatten(inFlight[1..]));
      framer, consumed, inFlight := Releasing(framer.chunk.buf), consumed + data, inFlight[1..];
    }

    // releaseChunk(res): never blocks, the list has room.
    method Release()
      requires Valid() && framer.Releasing?
      modifies this`free, this`framer
      ensures Valid() && |old(free)| < POOL_SIZE && free == old(free) + [old(framer).buf] && framer == Receiving
    {
      hide OnePlaceEach, Intact, Chunks, Flatten, Pending;
      Census(all, free, Chunks(ch), reader, framer);
      ReleaseKeeps(all, free, Chunks(ch), reader, framer.buf);
      SamePending(framer, Chunks(ch), reader, Receiving, reader);
      free, framer := free + [framer.buf], Receiving;
    }

    // One turn of the reader goroutine. It waits while there is nothing free or no room in the channel.
    method ReaderTurn(scratch: bytes, n: nat, err: ReadError)
      requires Valid() && |scratch| == chunkSize && n <= chunkSize
      modifies this`free, this`ch, this`reader, this`read, this`inFlight, this`reports, all
      ensures Valid()
      ensures read == if old(reader).Filling? then old(read) + scratch[..n] else old(read)
      ensures reports == if old(reader).Filling? then old(reports) + [err] else old(reports)
      ensures old(ReaderWaits()) || old(reader).Exited? <==> reader == old(reader)
    {
      hide OnePlaceEach, Intact, Chunks, Flatten, Pending, OrderOk, ReportsOk, Valid;
      match reader {
        case Taking => if free != [] { Take(); }
        case Filling(_) =>
          FillsOwnBuffer();
          Fill(scratch, n, err);
        case Sending(_, _) => if |ch| < CHANNEL_SIZE { Send(); }
        case PuttingBack(_, _) => PutBack();
        case SendingError => if |ch| < CHANNEL_SIZE { SendError(); }
        case Closing => CloseChannel();
        case Exited =>
      }
    }

    // One turn of the framer goroutine, with the bytes it consumes. It waits only for the channel.
    method FramerTurn() returns (data: bytes)
      requires Valid()
      modifies this`free, this`ch, this`framer, this`consumed, this`inFlight
      ensures Valid() && consumed == old(consumed) + data
      ensures old(FramerWaits()) || old(framer).Finished? <==> framer == old(framer)
    {
      hide OnePlaceEach, Intact, Chunks, Flatten, Pending, OrderOk, ReportsOk, Valid;
      data := [];
      assert consumed + [] == consumed;
      match framer {
        case Receiving =>
          if ch != [] && ch[0].Data? {
            ReceiveChunk();
          } else if ch != [] || reader.Exited? {
            ReceiveEnd();
          }
        case Consuming(_) => data := Consume();
        case Releasing(_) => Release();
        case Finished(_) =>
      }
    }

    lemma FillsOwnBuffer()
      requires Valid() && reader.Filling?
      ensures reader.buf in all
    {
      FillingIsOurs(all, free, Chunks(ch), reader.buf, framer);
    }

    // The goroutine is blocked on a channel operation.
    predicate ReaderWaits()
      reads this
    {
      || (reader.Taking? && free == [])
      || ((reader.Sending? || reader.SendingError?) && |ch| >= CHANNEL_SIZE)
    }

    predicate FramerWaits()
      reads this
    {
      framer.Receiving? && ch == [] && !reader.Exited?
    }
  }

  // In every state each buffer is in exactly one of the four places.
  lemma EachBufferInOnePlace(pool: Pool, b: array<byte>)
    requires pool.Valid() && b in pool.all
    ensures multiset(pool.free)[b] + multiset(Bufs(Chunks(pool.ch)))[b]
              + multiset(ReaderHolds(pool.reader))[b] + multiset(FramerHolds(pool.framer))[b] == 1
  {
    assert Owners(pool.free, Chunks(pool.ch), pool.reader, pool.framer)[b] == 1;
  }

  // The two goroutines never wait for each other.
  lemma NeverBothWait(pool: Pool)
    requires pool.Valid()
    ensures !(pool.ReaderWaits() && (pool.FramerWaits() || pool.framer.Finished?))
    ensures !(pool.reader.Exited? && pool.FramerWaits())
  {
    hide OnePlaceEach, Intact, Flatten;
    if pool.ReaderWaits() && (pool.FramerWaits() || pool.framer.Finished?) {
      assert pool.ch == [] && Chunks([]) == [];
      Census(pool.all, pool.free, Chunks(pool.ch), pool.reader, pool.framer);
      assert false;
    }
  }

  // When both are done everything read has been consumed and every buffer is free again.
  lemma DoneMeansDelivered(pool: Pool)
    requires pool.Valid() && pool.reader.Exited? && pool.framer.Finished?
    ensures pool.consumed == pool.read
    ensures multiset(pool.free) == multiset(pool.all)
  {
    hide ReportsOk;
    assert Pending(pool.framer, [], pool.reader) == [] && pool.inFlight == [] && Bufs([]) == [];
    assert pool.consumed + [] == pool.consumed;
  }

  // The reader stops when a Read reports the end or an error, and not before; the framer then returns an error
  // exactly if it was one.
  lemma ReadsUntilTheEnd(pool: Pool)
    requires pool.Valid()
    ensures HasStopped(pool.reader) ==>
              pool.reports != [] && forall i :: 0 <= i < |pool.reports| ==> (pool.reports[i] == NoError <==> i < |pool.reports| - 1)
    ensures pool.reader.Taking? || pool.reader.Filling? ==> forall i :: 0 <= i < |pool.reports| ==> pool.reports[i] == NoError
    ensures pool.framer.Finished? ==> pool.framer == Finished(LastReport(pool.reports) == Broken)
  {
    hide OnePlaceEach, Intact, Flatten;
  }

  // Memory between Read and the framer's copy: what has been read and not consumed fits the pool.
  lemma InFlightIsBounded(pool: Pool)
    requires pool.Valid()
    ensures |pool.read| - |pool.consumed| <= POOL_SIZE * pool.chunkSize
  {
    IntactSizes(pool.all, Pending(pool.framer, Chunks(pool.ch), pool.reader), pool.inFlight, pool.chunkSize);
    PendingCount(pool.all, pool.free, Chunks(pool.ch), pool.reader, pool.framer);
    hide OnePlaceEach, Intact, Flatten, Chunks, Pending;
    FlattenBound(pool.inFlight, pool.chunkSize);
    MulMonotone(|pool.inFlight|, POOL_SIZE, pool.chunkSize);
  }

  lemma IntactSizes(all: seq<array<byte>>, pending: seq<Chunk>, inFlight: seq<bytes>, size: nat)
    requires Intact(all, pending, inFlight) && forall b :: b in all ==> b.Length == size
    ensures forall i :: 0 <= i < |inFlight| ==> |inFlight[i]| <= size
  {
    forall i | 0 <= i < |inFlight| ensures |inFlight[i]| <= size {
      assert pending[i].buf in all;
    }
  }

  lemma PendingCount(all: seq<array<byte>>, free: seq<array<byte>>, chunks: seq<Chunk>, reader: ReaderState,
                     framer: FramerState)
    requires OnePlaceEach(all, free, chunks, reader, framer)
    ensures |Pending(framer, chunks, reader)| <= POOL_SIZE
  {
    hide OnePlaceEach;
    Census(all, free, chunks, reader, framer);
  }

  lemma MulMonotone(a: nat, b: nat, c: nat)
    requires a <= b
    ensures a * c <= b * c
  {
  }
}
