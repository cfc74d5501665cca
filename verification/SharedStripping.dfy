/**
 One stripper serves a whole queue (writer.go). With several producers on the queue its state goes from one
 producer's record to the next producer's: when is each producer's text stripped as if it were alone?
 */
module SharedStripping {
  import opened LogRecords
  import opened Ansi
  import P = Protocol
  import H = ProtocolHistory
  import Acc = ProtocolAccounting
  import Delivery
  import Q = QueueSpec

  type Owner = Option<P.Pid>

  // The items of one owner.
  function Of(p: Owner, owners: seq<Owner>, xs: seq<bytes>): seq<bytes>
    requires |owners| == |xs|
  {
    if xs == [] then []
    else
      var n := |xs| - 1;
      Of(p, owners[..n], xs[..n]) + if owners[n] == p then [xs[n]] else []
  }

  // Whenever the next record is another producer's, no sequence is open.
  ghost predicate NormalAtSwitches(owners: seq<Owner>, lines: seq<bytes>)
    requires |owners| == |lines|
  {
    forall i :: 0 < i < |lines| && owners[i - 1] != owners[i] ==> StripLines(Normal, lines[..i]).0 == Normal
  }

  lemma OfSnoc(p: Owner, owners: seq<Owner>, xs: seq<bytes>, o: Owner, x: bytes)
    requires |owners| == |xs|
    ensures Of(p, owners + [o], xs + [x]) == Of(p, owners, xs) + if o == p then [x] else []
  {
    assert (owners + [o])[..|owners|] == owners && (xs + [x])[..|xs|] == xs;
  }

  // The state in which a stripper of p's own would be.
  function OwnState(p: Owner, owners: seq<Owner>, lines: seq<bytes>): State
    requires |owners| == |lines|
  {
    StripLines(Normal, Of(p, owners, lines)).0
  }

  // p's lines came out as from a stripper of its own, which is now where the shared one is if the last line
  // was p's, and in Normal otherwise.
  ghost predicate AsIfAlone(p: Owner, owners: seq<Owner>, lines: seq<bytes>)
    requires |owners| == |lines|
  {
    var (st, out) := StripLines(Normal, lines);
    && |out| == |lines|
    && Of(p, owners, out) == StripLines(Normal, Of(p, owners, lines)).1
    && OwnState(p, owners, lines) == if lines != [] && owners[|owners| - 1] == p then st else Normal
  }

  // If no sequence is open whenever another producer's record follows, each producer's lines come out as if
  // it had a stripper of its own.
  lemma {:induction false} StrippedAsIfAlone(p: Owner, owners: seq<Owner>, lines: seq<bytes>)
    requires |owners| == |lines| && NormalAtSwitches(owners, lines)
    ensures AsIfAlone(p, owners, lines)
  {
    if lines != [] {
      var n := |lines| - 1;
      hide *;
      NormalPrefix(owners, lines);
      StrippedAsIfAlone(p, owners[..n], lines[..n]);
      SplitLast(owners);
      SplitLast(lines);
      OneMoreLine(p, owners[..n], lines[..n], owners[n], lines[n]);
    }
  }

  lemma SplitLast<T>(xs: seq<T>)
    requires xs != []
    ensures xs == xs[..|xs| - 1] + [xs[|xs| - 1]]
  {
  }

  lemma NormalPrefix(owners: seq<Owner>, lines: seq<bytes>)
    requires |owners| == |lines| > 0 && NormalAtSwitches(owners, lines)
    ensures NormalAtSwitches(owners[..|owners| - 1], lines[..|lines| - 1])
  {
    hide StripLines;
    var n := |lines| - 1;
    forall i | 0 < i < n && owners[i - 1] != owners[i] ensures StripLines(Normal, lines[..n][..i]).0 == Normal {
      assert lines[..n][..i] == lines[..i];
    }
  }

  lemma OneMoreLine(p: Owner, owners: seq<Owner>, lines: seq<bytes>, o: Owner, line: bytes)
    requires |owners| == |lines| && AsIfAlone(p, owners, lines) && NormalAtSwitches(owners + [o], lines + [line])
    ensures AsIfAlone(p, owners + [o], lines + [line])
  {
    SameOrClosed(owners, lines, o, line);
    var out, own := StripLines(Normal, lines).1, Of(p, owners, lines);
    var cut := StripFrom(StripLines(Normal, lines).0, line).1;
    hide StripLines, StripFrom, Of, NormalAtSwitches;
    StripLinesSnoc(Normal, lines, line);
    OfSnoc(p, owners, out, o, cut);
    OfSnoc(p, owners, lines, o, line);
    if o == p {
      StripLinesSnoc(Normal, own, line);
    } else {
      assert own + [] == own && Of(p, owners, out) + [] == Of(p, owners, out);
    }
  }

  lemma SameOrClosed(owners: seq<Owner>, lines: seq<bytes>, o: Owner, line: bytes)
    requires |owners| == |lines| && NormalAtSwitches(owners + [o], lines + [line])
    ensures lines == [] || owners[|owners| - 1] == o || StripLines(Normal, lines).0 == Normal
    ensures lines == [] ==> StripLines(Normal, lines).0 == Normal
  {
    var n := |lines|;
    assert (lines + [line])[..n] == lines;
    assert n > 0 ==> (owners + [o])[n - 1] == owners[n - 1];
  }

  // Something a reader of the records can check one by one: none ends inside a sequence.
  lemma {:induction false} ClosedRecordsSuffice(owners: seq<Owner>, lines: seq<bytes>)
    requires |owners| == |lines| && forall i :: 0 <= i < |lines| ==> StripFrom(Normal, lines[i]).0 == Normal
    ensures NormalAtSwitches(owners, lines) && StripLines(Normal, lines).0 == Normal
  {
    hide StripFrom;
    if lines != [] {
      var n := |lines| - 1;
      ClosedRecordsSuffice(owners[..n], lines[..n]);
      SplitLast(lines);
      StripLinesSnoc(Normal, lines[..n], lines[n]);
      forall i | 0 < i < |lines| && owners[i - 1] != owners[i] ensures StripLines(Normal, lines[..i]).0 == Normal {
        if i < n {
          assert lines[..n][..i] == lines[..i] && owners[..n][i - 1] != owners[..n][i];
        }
      }
    }
  }

  // Two states are told apart by what some line leaves of them.
  lemma StatesDiffer(a: State, b: State)
    ensures (forall line :: StripFrom(a, line).1 == StripFrom(b, line).1) <==> a == b
  {
    if a != b {
      var h: byte := 0x68;
      var l0, l1, l2, l3: bytes := [h], [0x30, h], [0x40, h], [BACKSLASH, h];
      StripTwo(a, 0x30, h); StripTwo(b, 0x30, h);
      StripTwo(a, 0x40, h); StripTwo(b, 0x40, h);
      StripTwo(a, BACKSLASH, h); StripTwo(b, BACKSLASH, h);
      StripOne(a, h); StripOne(b, h);
      assert StripFrom(a, l0).1 != StripFrom(b, l0).1 || StripFrom(a, l1).1 != StripFrom(b, l1).1
          || StripFrom(a, l2).1 != StripFrom(b, l2).1 || StripFrom(a, l3).1 != StripFrom(b, l3).1;
    }
  }

  // Exactly: whatever p's next line is, it comes out as from a stripper of p's own if and only if the shared
  // stripper is now in the state p's own would be in.
  lemma NextLineIffSameState(p: Owner, owners: seq<Owner>, lines: seq<bytes>)
    requires |owners| == |lines|
    ensures (forall line :: Last(StripLines(Normal, lines + [line]).1) == Last(StripLines(Normal, Of(p, owners, lines) + [line]).1))
            <==> StripLines(Normal, lines).0 == OwnState(p, owners, lines)
  {
    var shared, own := StripLines(Normal, lines).0, OwnState(p, owners, lines);
    forall line
      ensures Last(StripLines(Normal, lines + [line]).1) == StripFrom(shared, line).1
      ensures Last(StripLines(Normal, Of(p, owners, lines) + [line]).1) == StripFrom(own, line).1
    {
      StripLinesSnoc(Normal, lines, line);
      StripLinesSnoc(Normal, Of(p, owners, lines), line);
    }
    StatesDiffer(shared, own);
  }

  function Last(xs: seq<bytes>): bytes {
    if xs == [] then [] else xs[|xs| - 1]
  }

  // A fragment of one connection that ends inside a sequence, as a timeout may leave it, swallows the
  // beginning of another connection's next line.
  lemma CutThenHello()
    ensures var cut: bytes, hello: bytes := [ESC, LBRACKET, 0x33, 0x31], [0x68, 0x65, 0x6c, 0x6c, 0x6f];
            && StripLines(Normal, [hello]).1 == [hello]
            && StripLines(Normal, [cut, hello]).1 == [[], hello[1..]]
  {
    var cut: bytes, hello: bytes := [ESC, LBRACKET, 0x33, 0x31], [0x68, 0x65, 0x6c, 0x6c, 0x6f];
    StripTwo(Normal, ESC, LBRACKET);
    CsiBodyStays([0x33, 0x31]);
    StripSplit(Normal, [ESC, LBRACKET], [0x33, 0x31]);
    assert [ESC, LBRACKET] + [0x33, 0x31] == cut;
    StripPlain(hello);
    StripOne(Csi, 0x68);
    StripPlain(hello[1..]);
    StripSplit(Csi, [0x68], hello[1..]);
    assert [0x68] + hello[1..] == hello && [] + hello[1..] == hello[1..];
    assert Step(Csi, 0x68) == (Normal, []);
    assert StripFrom(Normal, cut) == (Csi, []) && StripFrom(Csi, hello) == (Normal, hello[1..]);
    hide StripFrom, Step;
    TwoLines(cut, hello);
  }

  lemma TwoLines(x: bytes, y: bytes)
    ensures StripLines(Normal, [y]).1 == [StripFrom(Normal, y).1]
    ensures StripLines(Normal, [x, y]).1 == [StripFrom(Normal, x).1, StripFrom(StripFrom(Normal, x).0, y).1]
  {
    hide StripFrom;
    StripLinesSnoc(Normal, [], y);
    StripLinesSnoc(Normal, [], x);
    StripLinesSnoc(Normal, [x], y);
    assert [] + [x] == [x] && [] + [y] == [y] && [x] + [y] == [x, y];
  }

  /* ---- On the queue ---- */

  // Who had a dequeued record accepted; sequence numbers are positions in the list of accepted records.
  function OwnerOf(accepted: seq<P.Tagged>, r: Record): Owner {
    if r.seqNo < |accepted| then accepted[r.seqNo].owner else None
  }

  function OwnersOf(accepted: seq<P.Tagged>, rs: seq<Record>): (os: seq<Owner>)
    ensures |os| == |Delivery.UserLines(rs)|
  {
    if rs == [] then []
    else
      var r := rs[|rs| - 1];
      OwnersOf(accepted, rs[..|rs| - 1]) + if r.end == Internal then [] else [OwnerOf(accepted, r)]
  }

  lemma OwnersAreRight(cfg: Q.QueueConfig, stripAnsi: bool, acts: seq<P.Action>, s: P.Sys, r: Record)
    requires P.ValidConfig(cfg) && P.Run(P.Init(cfg, stripAnsi), acts) == Some(s) && r in Acc.RawOf(s.log)
    ensures r.seqNo < |s.h.accepted| && s.h.accepted[r.seqNo].rec == r
  {
    Acc.RunsAreSound(cfg, stripAnsi, acts, s);
    var all, lo := P.Recs(s.h.accepted), H.ViewOf(s).Lo();
    assert r in s.h.popped;
    assert r in multiset(s.h.popped) && r in multiset(s.h.popped) + multiset(s.h.evicted);
    assert r in multiset(all[..lo]);
    var i :| 0 <= i < lo && all[..lo][i] == r;
    assert all[i] == r;
  }

  // In every state of every run: if no sequence is open whenever the next user record dequeued is another
  // producer's, the lines of each producer in the sink are the strip of that producer's own lines.
  lemma EachProducerIsStrippedAlone(cfg: Q.QueueConfig, acts: seq<P.Action>, s: P.Sys, p: Owner)
    requires P.ValidConfig(cfg) && P.Run(P.Init(cfg, true), acts) == Some(s)
    requires NormalAtSwitches(OwnersOf(s.h.accepted, Acc.RawOf(s.log)), Delivery.UserLines(Acc.RawOf(s.log)))
    ensures var owners, lines := OwnersOf(s.h.accepted, Acc.RawOf(s.log)), Delivery.UserLines(Acc.RawOf(s.log));
            var written := Delivery.UserLines(Acc.WrittenOf(s.log));
            |written| == |owners| && Of(p, owners, written) == StripLines(Normal, Of(p, owners, lines)).1
  {
    Acc.RunsAreSound(cfg, true, acts, s);
    Delivery.CleaningIsStripping(Normal, Acc.RawOf(s.log));
    StrippedAsIfAlone(p, OwnersOf(s.h.accepted, Acc.RawOf(s.log)), Delivery.UserLines(Acc.RawOf(s.log)));
  }

  /* ---- Two producers and the writer ---- */

  // Each of two producers pushes one line, and the writer takes both.
  function TwoPushes(x: P.Item, y: P.Item): seq<P.Action> {
    [P.PushStart(0, x), P.PushStart(1, y), P.Receive,
     P.TakeDrops, P.PopNext(None), P.WriteNext(true), P.TakeDrops, P.PopNext(None), P.WriteNext(true)]
  }

  // The queue is open, nobody is inside Push, nothing was dropped; so much is queued, so much was written.
  ghost predicate Going(s: P.Sys, queued: seq<Record>, raw: seq<Record>) {
    && Q.ValidState(s.q) && !s.q.closed && s.q.drops == Q.NO_DROPS && s.blocked == map[]
    && s.q.contents == queued && Acc.RawOf(s.log) == raw
  }

  lemma PushGoes(init: P.Sys, acts: seq<P.Action>, s: P.Sys, p: P.Pid, item: P.Item, queued: seq<Record>)
      returns (t: P.Sys)
    requires P.Run(init, acts) == Some(s) && Going(s, queued, []) && s.w.Parked?
    requires Q.HasCapacity(s.q, |item.line|)
    ensures P.Run(init, acts + [P.PushStart(p, item)]) == Some(t)
    ensures Going(t, queued + [FromMeta(item.meta, item.line, s.q.nextSeq)], []) && t.w.Parked? && t.q.wake.token
    ensures t.q.nextSeq == s.q.nextSeq + 1 && t.q.cfg == s.q.cfg
    ensures t.h.accepted == s.h.accepted + [P.Tagged(Some(p), FromMeta(item.meta, item.line, s.q.nextSeq))]
  {
    var s1 := P.Offer(s, p, item);
    Q.AcceptedPush(s1.q, item.meta, item.line);
    Q.PushKeepsValid(s1.q, item.meta, item.line);
    t := P.Next(s, P.PushStart(p, item));
    hide P.Run;
    P.RunOneMore(init, acts, s, P.PushStart(p, item));
  }

  lemma ReceiveGoes(init: P.Sys, acts: seq<P.Action>, s: P.Sys, queued: seq<Record>) returns (t: P.Sys)
    requires P.Run(init, acts) == Some(s) && Going(s, queued, []) && s.w.Parked? && s.q.wake.token
    ensures P.Run(init, acts + [P.Receive]) == Some(t)
    ensures Going(t, queued, []) && t.w == P.Emit(true) && t.h.accepted == s.h.accepted
  {
    t := P.Next(s, P.Receive);
    hide P.Run;
    P.RunOneMore(init, acts, s, P.Receive);
  }

  lemma TakeDropsGoes(init: P.Sys, acts: seq<P.Action>, s: P.Sys, queued: seq<Record>, raw: seq<Record>)
      returns (t: P.Sys)
    requires P.Run(init, acts) == Some(s) && Going(s, queued, raw) && s.w == P.Emit(true)
    ensures P.Run(init, acts + [P.TakeDrops]) == Some(t)
    ensures Going(t, queued, raw) && t.w == P.BeforePop(true) && t.h.accepted == s.h.accepted
  {
    t := P.Next(s, P.TakeDrops);
    hide P.Run;
    P.RunOneMore(init, acts, s, P.TakeDrops);
  }

  lemma PopGoes(init: P.Sys, acts: seq<P.Action>, s: P.Sys, r: Record, rest: seq<Record>, raw: seq<Record>)
      returns (t: P.Sys)
    requires P.Run(init, acts) == Some(s) && Going(s, [r] + rest, raw) && s.w == P.BeforePop(true)
    ensures P.Run(init, acts + [P.PopNext(None)]) == Some(t)
    ensures Going(t, rest, raw) && t.w == P.Writing(true, r) && t.h.accepted == s.h.accepted
  {
    t := P.Next(s, P.PopNext(None));
    hide P.Run;
    P.RunOneMore(init, acts, s, P.PopNext(None));
    Q.PopKeepsValid(s.q);
    assert ([r] + rest)[1..] == rest && ([r] + rest)[0] == r;
  }

  lemma WriteGoes(init: P.Sys, acts: seq<P.Action>, s: P.Sys, r: Record, queued: seq<Record>, raw: seq<Record>)
      returns (t: P.Sys)
    requires P.Run(init, acts) == Some(s) && Going(s, queued, raw) && s.w == P.Writing(true, r)
    ensures P.Run(init, acts + [P.WriteNext(true)]) == Some(t)
    ensures Going(t, queued, raw + [r]) && t.w == P.Emit(true) && t.h.accepted == s.h.accepted
  {
    t := P.Next(s, P.WriteNext(true));
    hide P.Run;
    P.RunOneMore(init, acts, s, P.WriteNext(true));
    assert t.log[..|s.log|] == s.log;
  }

  // Take the drops, pop, write.
  lemma WriterTakesOne(init: P.Sys, acts: seq<P.Action>, s: P.Sys, r: Record, rest: seq<Record>, raw: seq<Record>)
      returns (t: P.Sys)
    requires P.Run(init, acts) == Some(s) && Going(s, [r] + rest, raw) && s.w == P.Emit(true)
    ensures P.Run(init, acts + [P.TakeDrops] + [P.PopNext(None)] + [P.WriteNext(true)]) == Some(t)
    ensures Going(t, rest, raw + [r]) && t.w == P.Emit(true) && t.h.accepted == s.h.accepted
  {
    hide *;
    var s1 := TakeDropsGoes(init, acts, s, [r] + rest, raw);
    var s2 := PopGoes(init, acts + [P.TakeDrops], s1, r, rest, raw);
    t := WriteGoes(init, acts + [P.TakeDrops] + [P.PopNext(None)], s2, r, rest, raw);
  }

  lemma BothPushed(cfg: Q.QueueConfig, x: P.Item, y: P.Item) returns (s: P.Sys)
    requires cfg.maxRecords >= 2 && |x.line| + |y.line| <= cfg.maxBytes
    ensures P.Run(P.Init(cfg, true), [] + [P.PushStart(0, x)] + [P.PushStart(1, y)]) == Some(s)
    ensures var r0, r1 := FromMeta(x.meta, x.line, 0), FromMeta(y.meta, y.line, 1);
            && Going(s, [] + [r0] + [r1], []) && s.w.Parked? && s.q.wake.token
            && s.h.accepted == [] + [P.Tagged(Some(0), r0)] + [P.Tagged(Some(1), r1)]
  {
    var r0, init := FromMeta(x.meta, x.line, 0), P.Init(cfg, true);
    assert Bytes([]) == 0;
    assert P.Run(init, []) == Some(init) && Going(init, [], []) && Q.HasCapacity(init.q, |x.line|);
    hide *;
    var s1 := PushGoes(init, [], init, 0, x, []);
    RoomForOneMore(s1, r0, |y.line|);
    s := PushGoes(init, [] + [P.PushStart(0, x)], s1, 1, y, [] + [r0]);
  }

  lemma RoomForOneMore(s: P.Sys, r: Record, size: nat)
    requires Going(s, [] + [r], []) && s.q.cfg.maxRecords >= 2 && |r.line| + size <= s.q.cfg.maxBytes
    ensures Q.HasCapacity(s.q, size)
  {
    assert [] + [r] == [r];
    BytesOne(r);
  }

  // Two lines that fit the queue together are dequeued in the order of the pushes.
  lemma TwoPushesRun(cfg: Q.QueueConfig, x: P.Item, y: P.Item) returns (s: P.Sys)
    requires cfg.maxRecords >= 2 && |x.line| + |y.line| <= cfg.maxBytes
    ensures P.Run(P.Init(cfg, true), TwoPushes(x, y)) == Some(s)
    ensures var r0, r1 := FromMeta(x.meta, x.line, 0), FromMeta(y.meta, y.line, 1);
            && s.h.accepted == [P.Tagged(Some(0), r0), P.Tagged(Some(1), r1)]
            && Acc.RawOf(s.log) == [r0, r1]
  {
    var r0, r1, init := FromMeta(x.meta, x.line, 0), FromMeta(y.meta, y.line, 1), P.Init(cfg, true);
    var s2 := BothPushed(cfg, x, y);
    hide *;
    var acts := [] + [P.PushStart(0, x)] + [P.PushStart(1, y)];
    PairIsAppends(r0, r1);
    PairIsAppends(P.Tagged(Some(0), r0), P.Tagged(Some(1), r1));
    var s3 := ReceiveGoes(init, acts, s2, [r0] + [r1]);
    acts := acts + [P.Receive];
    var s4 := WriterTakesOne(init, acts, s3, r0, [r1], []);
    acts := acts + [P.TakeDrops] + [P.PopNext(None)] + [P.WriteNext(true)];
    s := WriterTakesOne(init, acts, s4, r1, [], [] + [r0]);
    GoneRaw(s, [], [] + [r0] + [r1]);
    TwoPushesInSteps(x, y);
  }

  lemma PairIsAppends<T>(x: T, y: T)
    ensures [] + [x] + [y] == [x, y] == [x] + [y] && [y] + [] == [y]
  {
  }

  lemma TwoPushesInSteps(x: P.Item, y: P.Item)
    ensures [] + [P.PushStart(0, x)] + [P.PushStart(1, y)] + [P.Receive]
            + [P.TakeDrops] + [P.PopNext(None)] + [P.WriteNext(true)]
            + [P.TakeDrops] + [P.PopNext(None)] + [P.WriteNext(true)] == TwoPushes(x, y)
  {
  }

  lemma GoneRaw(s: P.Sys, queued: seq<Record>, raw: seq<Record>)
    requires Going(s, queued, raw)
    ensures Acc.RawOf(s.log) == raw
  {
  }

  lemma TwoUserRecords(accepted: seq<P.Tagged>, r0: Record, r1: Record)
    requires r0.end != Internal && r1.end != Internal && r0.seqNo == 0 && r1.seqNo == 1
    ensures Delivery.UserLines([r0, r1]) == [r0.line, r1.line]
    ensures |accepted| == 2 ==> OwnersOf(accepted, [r0, r1]) == [accepted[0].owner, accepted[1].owner]
  {
    assert [r0, r1][..1] == [r0] && [r0][..0] == [];
    assert OwnersOf(accepted, [r0]) == [] + [OwnerOf(accepted, r0)];
    assert Delivery.UserLines([r0]) == [] + [r0.line];
  }

  // The run at whose end the second producer's line has lost its first byte, although a stripper of its own
  // would have left it whole.
  lemma SecondProducerLosesAByte(cfg: Q.QueueConfig, m0: RecordMeta, m1: RecordMeta) returns (s: P.Sys)
    requires cfg.maxRecords >= 2 && cfg.maxBytes >= 9 && m0.end == Timeout && m1.end == Newline
    ensures var cut: bytes, hello: bytes := [ESC, LBRACKET, 0x33, 0x31], [0x68, 0x65, 0x6c, 0x6c, 0x6f];
            && P.Run(P.Init(cfg, true), TwoPushes(P.Item(m0, cut), P.Item(m1, hello))) == Some(s)
            && OwnersOf(s.h.accepted, Acc.RawOf(s.log)) == [Some(0), Some(1)]
            && Delivery.UserLines(Acc.RawOf(s.log)) == [cut, hello]
            && Delivery.UserLines(Acc.WrittenOf(s.log)) == [[], hello[1..]]
            && StripLines(Normal, [hello]).1 == [hello]
  {
    var cut: bytes, hello: bytes := [ESC, LBRACKET, 0x33, 0x31], [0x68, 0x65, 0x6c, 0x6c, 0x6f];
    var x, y := P.Item(m0, cut), P.Item(m1, hello);
    s := TwoPushesRun(cfg, x, y);
    var r0, r1 := FromMeta(m0, cut, 0), FromMeta(m1, hello, 1);
    hide *;
    Acc.RunsAreSound(cfg, true, TwoPushes(x, y), s);
    Delivery.CleaningIsStripping(Normal, [r0, r1]);
    TwoUserRecords(s.h.accepted, r0, r1);
    CutThenHello();
  }
}
