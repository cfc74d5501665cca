/** Conservation over whole runs: drops against summaries, the sink's log against the queue, and each
    producer's records against what it offered. */
module ProtocolAccounting {
  import opened LogRecords
  import opened Protocol
  import opened ProtocolSafety
  import opened ProtocolHistory
  import Q = QueueSpec
  import Ansi

  /* ---- Drops ---- */

  function SummaryRecords(log: seq<Entry>): nat {
    if log == [] then 0
    else
      var e := log[|log| - 1];
      SummaryRecords(log[..|log| - 1]) + if e.Summary? then e.written.droppedRecords else 0
  }

  function SummaryBytes(log: seq<Entry>): nat {
    if log == [] then 0
    else
      var e := log[|log| - 1];
      SummaryBytes(log[..|log| - 1]) + if e.Summary? then e.written.droppedBytes else 0
  }

  function TotalLength(lines: seq<bytes>): nat {
    if lines == [] then 0 else TotalLength(lines[..|lines| - 1]) + |lines[|lines| - 1]|
  }

  // Taken by the writer and not yet written.
  function InFlight(w: WriterPc): Q.DropStats {
    match w
    case Summarizing(_, d) => d
    case SummarizingFinal(d) => d
    case _ => Q.NO_DROPS
  }

  // Every lost record is counted, and is in a summary, on its way into one, or waiting to be taken.
  ghost predicate DropsBalance(s: Sys) {
    && s.q.counters.droppedRecords == |s.h.noRoom| + |s.h.evicted|
    && s.q.counters.droppedBytes == TotalLength(s.h.noRoom) + Bytes(s.h.evicted)
    && (s.q.cfg.overflow == Q.Block ==> s.h.noRoom == [] && s.h.evicted == [])
    && (!SinkFailed(s) ==>
          && SummaryRecords(s.log) + InFlight(s.w).records + s.q.drops.records == s.q.counters.droppedRecords
          && SummaryBytes(s.log) + InFlight(s.w).bytes + s.q.drops.bytes == s.q.counters.droppedBytes)
  }

  lemma TotalLengthSnoc(lines: seq<bytes>, line: bytes)
    ensures TotalLength(lines + [line]) == TotalLength(lines) + |line|
  {
    assert (lines + [line])[..|lines|] == lines;
  }

  lemma AcceptedKeepsDropsBalance(s: Sys, p: Pid, item: Item)
    requires Q.ValidState(s.q) && DropsBalance(s) && Q.Push(s.q, item.meta, item.line).1 == Q.Accepted
    ensures DropsBalance(Attempt(s, p, item))
  {
    var t := Attempt(s, p, item);
    Q.PushTallies(s.q, item.meta, item.line);
    BytesConcat(s.h.evicted, s.q.contents[..|s.q.contents| + 1 - |t.q.contents|]);
  }

  lemma AttemptKeepsDropsBalance(s: Sys, p: Pid, item: Item)
    requires Q.ValidState(s.q) && DropsBalance(s)
    ensures DropsBalance(Attempt(s, p, item))
  {
    if Q.Push(s.q, item.meta, item.line).1 == Q.Accepted {
      AcceptedKeepsDropsBalance(s, p, item);
    } else {
      Q.PushTallies(s.q, item.meta, item.line);
      TotalLengthSnoc(s.h.noRoom, item.line);
    }
  }

  // Only the parts DropsBalance speaks of.
  lemma SameDropsBalance(s: Sys, t: Sys)
    requires DropsBalance(s)
    requires t.q.counters == s.q.counters && t.q.drops == s.q.drops && t.q.cfg == s.q.cfg && t.log == s.log
    requires t.h.noRoom == s.h.noRoom && t.h.evicted == s.h.evicted
    requires SinkFailed(s) ==> SinkFailed(t)
    requires !SinkFailed(t) ==> InFlight(t.w) == InFlight(s.w)
    ensures DropsBalance(t)
  {
  }

  lemma TakeKeepsDropsBalance(s: Sys)
    requires Q.ValidState(s.q) && DropsBalance(s) && Enabled(s, TakeDrops)
    requires s.q.drops.records == 0 ==> s.q.drops.bytes == 0
    ensures DropsBalance(Next(s, TakeDrops))
  {
  }

  lemma SummariesSnoc(log: seq<Entry>, e: Entry)
    ensures SummaryRecords(log + [e]) == SummaryRecords(log) + if e.Summary? then e.written.droppedRecords else 0
    ensures SummaryBytes(log + [e]) == SummaryBytes(log) + if e.Summary? then e.written.droppedBytes else 0
  {
    assert (log + [e])[..|log|] == log;
  }

  lemma SummaryKeepsDropsBalance(s: Sys, ok: bool, now: int)
    requires Q.ValidState(s.q) && DropsBalance(s) && Enabled(s, WriteSummary(ok, now))
    ensures DropsBalance(Next(s, WriteSummary(ok, now)))
  {
    SummariesSnoc(s.log, Summary(s.w.drops, SummaryRecord(s.w.drops, now)));
  }

  lemma WriteKeepsDropsBalance(s: Sys, ok: bool)
    requires Q.ValidState(s.q) && DropsBalance(s) && s.w.Writing?
    ensures DropsBalance(Next(s, WriteNext(ok)))
  {
    SummariesSnoc(s.log, Popped(s.w.rec, Cleaned(s.strip, s.w.rec).1));
  }

  lemma PopKeepsDropsBalance(s: Sys, signalled: Option<Pid>)
    requires Q.ValidState(s.q) && DropsBalance(s) && Enabled(s, PopNext(signalled))
    ensures DropsBalance(Next(s, PopNext(signalled)))
  {
    SameDropsBalance(s, Next(s, PopNext(signalled)));
  }

  lemma InternalPushKeepsDropsBalance(s: Sys, rec: Record)
    requires Q.ValidState(s.q) && DropsBalance(s)
    ensures DropsBalance(Next(s, InternalPush(rec)))
  {
    SameDropsBalance(s, Next(s, InternalPush(rec)));
  }

  lemma QuietKeepsDropsBalance(s: Sys, a: Action)
    requires Q.ValidState(s.q) && DropsBalance(s) && Enabled(s, a) && IsQuiet(a)
    ensures DropsBalance(Next(s, a))
  {
    QuietStep(s, a);
    SameDropsBalance(s, Next(s, a));
  }

  lemma NextKeepsDropsBalance(s: Sys, a: Action)
    requires Structure(s) && DropsBalance(s) && Enabled(s, a)
    ensures DropsBalance(Next(s, a))
  {
    match a
    case PushStart(p, item) =>
      AttemptKeepsDropsBalance(Offer(s, p, item), p, item);
    case Resume(p) => AttemptKeepsDropsBalance(s, p, s.blocked[p].item);
    case InternalPush(rec) => InternalPushKeepsDropsBalance(s, rec);
    case TakeDrops => TakeKeepsDropsBalance(s);
    case WriteSummary(ok, now) => SummaryKeepsDropsBalance(s, ok, now);
    case WriteNext(ok) => WriteKeepsDropsBalance(s, ok);
    case PopNext(signalled) => PopKeepsDropsBalance(s, signalled);
    case _ => QuietKeepsDropsBalance(s, a);
  }

  /* ---- The sink's log ---- */

  // The dequeued records behind the log, and what the sink got for them.
  function RawOf(log: seq<Entry>): seq<Record> {
    if log == [] then []
    else
      var e := log[|log| - 1];
      RawOf(log[..|log| - 1]) + if e.Popped? then [e.raw] else []
  }

  function WrittenOf(log: seq<Entry>): seq<Record> {
    if log == [] then []
    else
      var e := log[|log| - 1];
      WrittenOf(log[..|log| - 1]) + if e.Popped? then [e.written] else []
  }

  // Record-by-record cleaning with the stripper state carried along.
  function CleanAll(strip: Option<Ansi.State>, rs: seq<Record>): (Option<Ansi.State>, seq<Record>) {
    if rs == [] then (strip, [])
    else
      var (st, done) := CleanAll(strip, rs[..|rs| - 1]);
      var (st', rec) := Cleaned(st, rs[|rs| - 1]);
      (st', done + [rec])
  }

  ghost predicate IsSummaryOf(e: Entry) {
    e.Summary? ==> exists now :: e.written == SummaryRecord(e.drops, now)
  }

  // While the sink works, it has got every popped record but the one in the writer's hands, in order and
  // cleaned as one stream, plus drop summaries.
  ghost predicate LogFaithful(s: Sys, strip0: Option<Ansi.State>) {
    && (!SinkFailed(s) ==> s.h.popped == RawOf(s.log) + if s.w.Writing? then [s.w.rec] else [])
    && RawOf(s.log) <= s.h.popped
    && CleanAll(strip0, RawOf(s.log)) == (s.strip, WrittenOf(s.log))
    && forall e :: e in s.log ==> IsSummaryOf(e)
  }

  lemma CleanAllSnoc(strip: Option<Ansi.State>, rs: seq<Record>, rec: Record)
    ensures var (st, done) := CleanAll(strip, rs);
            CleanAll(strip, rs + [rec]) == (Cleaned(st, rec).0, done + [Cleaned(st, rec).1])
  {
    assert (rs + [rec])[..|rs|] == rs;
  }

  lemma WriteKeepsLogFaithful(s: Sys, strip0: Option<Ansi.State>)
    requires Q.ValidState(s.q) && LogFaithful(s, strip0) && s.w.Writing?
    ensures LogFaithful(Next(s, WriteNext(true)), strip0)
  {
    var t := Next(s, WriteNext(true));
    var entry := t.log[|s.log|];
    assert t.log[..|s.log|] == s.log;
    assert RawOf(t.log) == RawOf(s.log) + [s.w.rec] && WrittenOf(t.log) == WrittenOf(s.log) + [entry.written];
    CleanAllSnoc(strip0, RawOf(s.log), s.w.rec);
  }

  lemma SummaryKeepsLogFaithful(s: Sys, now: int, strip0: Option<Ansi.State>)
    requires Q.ValidState(s.q) && LogFaithful(s, strip0) && Enabled(s, WriteSummary(true, now))
    ensures LogFaithful(Next(s, WriteSummary(true, now)), strip0)
  {
    var t := Next(s, WriteSummary(true, now));
    assert t.log[..|s.log|] == s.log;
    assert RawOf(t.log) == RawOf(s.log) && WrittenOf(t.log) == WrittenOf(s.log);
    assert IsSummaryOf(t.log[|s.log|]);
  }

  lemma QuietKeepsLogFaithful(s: Sys, a: Action, strip0: Option<Ansi.State>)
    requires Q.ValidState(s.q) && LogFaithful(s, strip0) && Enabled(s, a) && IsQuiet(a)
    ensures LogFaithful(Next(s, a), strip0)
  {
    QuietStep(s, a);
  }

  lemma PushKeepsLogFaithful(s: Sys, a: Action, strip0: Option<Ansi.State>)
    requires Q.ValidState(s.q) && LogFaithful(s, strip0) && Enabled(s, a)
    requires a.PushStart? || a.Resume? || a.InternalPush?
    ensures LogFaithful(Next(s, a), strip0)
  {
    var t := Next(s, a);
    assert t.h.popped == s.h.popped && t.log == s.log && t.w == s.w && t.strip == s.strip;
  }

  lemma NextKeepsLogFaithful(s: Sys, a: Action, strip0: Option<Ansi.State>)
    requires Q.ValidState(s.q) && LogFaithful(s, strip0) && Enabled(s, a)
    ensures LogFaithful(Next(s, a), strip0)
  {
    if IsQuiet(a) {
      QuietKeepsLogFaithful(s, a, strip0);
    } else if a.PushStart? || a.Resume? || a.InternalPush? {
      PushKeepsLogFaithful(s, a, strip0);
    } else if a == WriteNext(true) {
      WriteKeepsLogFaithful(s, strip0);
    } else if a.WriteSummary? && a.ok {
      SummaryKeepsLogFaithful(s, a.now, strip0);
    }
  }

  /* ---- Producers ---- */

  function ItemOf(r: Record): Item {
    Item(RecordMeta(r.time, r.end, r.source, r.continued, r.metadata), r.line)
  }

  // What producer p got into the queue, in order.
  function By(p: Pid, ts: seq<Tagged>): seq<Item> {
    if ts == [] then []
    else
      var t := ts[|ts| - 1];
      By(p, ts[..|ts| - 1]) + if t.owner == Some(p) then [ItemOf(t.rec)] else []
  }

  // The line p is blocked on.
  function Pending(s: Sys, p: Pid): seq<Item> {
    if p in s.blocked then [s.blocked[p].item] else []
  }

  function Outcome(s: Sys, p: Pid): seq<Item> {
    By(p, s.h.accepted) + Get(s.h.refused, p)
  }

  // Under block nothing a producer offers is lost before close; under every policy its accepted
  // records keep their order.
  ghost predicate ProducerOk(s: Sys, p: Pid, tail: seq<Item>) {
    && IsSubsequence(Outcome(s, p) + tail, Get(s.h.offered, p))
    && (s.q.cfg.overflow == Q.Block ==> Outcome(s, p) + tail == Get(s.h.offered, p))
    && (Get(s.h.refused, p) != [] ==> s.q.closed)
  }

  ghost predicate ProducersOk(s: Sys) {
    forall p :: ProducerOk(s, p, Pending(s, p))
  }

  lemma {:induction false} SubsequenceDropTail<T>(a: seq<T>, c: seq<T>, b: seq<T>)
    requires IsSubsequence(a + c, b)
    ensures IsSubsequence(a, b)
    decreases |b|
  {
    if a != [] && b != [] {
      if (a + c)[0] == b[0] && IsSubsequence((a + c)[1..], b[1..]) {
        assert (a + c)[1..] == a[1..] + c;
        SubsequenceDropTail(a[1..], c, b[1..]);
      } else {
        SubsequenceDropTail(a, c, b[1..]);
      }
    }
  }

  lemma SubsequenceRefl<T>(a: seq<T>)
    ensures IsSubsequence(a, a)
  {
  }

  // p's offered item is in play; the attempt settles it or leaves p blocked on it.
  lemma AcceptedAddsToBy(s: Sys, p: Pid, item: Item)
    requires Q.ValidState(s.q) && Q.Push(s.q, item.meta, item.line).1 == Q.Accepted
    ensures By(p, Attempt(s, p, item).h.accepted) == By(p, s.h.accepted) + [item]
    ensures !s.q.closed
  {
    var t := Attempt(s, p, item);
    var tag := Tagged(Some(p), FromMeta(item.meta, item.line, s.q.nextSeq));
    Q.AcceptedPush(s.q, item.meta, item.line);
    assert t.h.accepted == s.h.accepted + [tag] && t.h.accepted[..|s.h.accepted|] == s.h.accepted;
  }

  lemma AcceptedKeepsProducer(s: Sys, p: Pid, item: Item)
    requires Q.ValidState(s.q) && ProducerOk(s, p, [item]) && Q.Push(s.q, item.meta, item.line).1 == Q.Accepted
    ensures ProducerOk(Attempt(s, p, item), p, [])
  {
    var t := Attempt(s, p, item);
    AcceptedAddsToBy(s, p, item);
    AttemptEffect(s, p, item);
    assert Get(t.h.refused, p) == Get(s.h.refused, p) == [];
    assert Outcome(t, p) + [] == Outcome(s, p) + [item];
  }

  lemma RefusedKeepsProducer(s: Sys, p: Pid, item: Item)
    requires Q.ValidState(s.q) && ProducerOk(s, p, [item]) && Q.Push(s.q, item.meta, item.line).1 == Q.Refused
    ensures ProducerOk(Attempt(s, p, item), p, [])
  {
    var t := Attempt(s, p, item);
    Q.PushTallies(s.q, item.meta, item.line);
    if s.q.closed {
      assert Outcome(t, p) + [] == Outcome(s, p) + [item];
    } else {
      assert Outcome(t, p) + [] == Outcome(s, p);
      SubsequenceDropTail(Outcome(s, p), [item], Get(s.h.offered, p));
    }
  }

  lemma AttemptKeepsProducer(s: Sys, p: Pid, item: Item)
    requires Q.ValidState(s.q) && ProducerOk(s, p, [item])
    ensures ProducerOk(Attempt(s, p, item), p, Pending(Attempt(s, p, item), p))
  {
    match Q.Push(s.q, item.meta, item.line).1
    case MustWait =>
    case Accepted => AcceptedKeepsProducer(s, p, item);
    case Refused => RefusedKeepsProducer(s, p, item);
  }

  // An attempt by p leaves everything recorded about x as it is.
  lemma AttemptIgnoresOthers(s: Sys, p: Pid, item: Item, x: Pid)
    requires Q.ValidState(s.q) && x != p
    ensures var t := Attempt(s, p, item);
            && Pending(t, x) == Pending(s, x) && Outcome(t, x) == Outcome(s, x)
            && Get(t.h.refused, x) == Get(s.h.refused, x) && Get(t.h.offered, x) == Get(s.h.offered, x)
            && t.q.cfg == s.q.cfg && t.q.closed == s.q.closed
  {
    var t := Attempt(s, p, item);
    AttemptEffect(s, p, item);
    if t.h.accepted != s.h.accepted {
      assert t.h.accepted[..|s.h.accepted|] == s.h.accepted;
      assert By(x, t.h.accepted) == By(x, s.h.accepted);
    }
  }

  lemma AttemptKeepsOthers(s: Sys, p: Pid, item: Item, x: Pid)
    requires Q.ValidState(s.q) && ProducerOk(s, x, Pending(s, x)) && x != p
    ensures ProducerOk(Attempt(s, p, item), x, Pending(Attempt(s, p, item), x))
  {
    AttemptIgnoresOthers(s, p, item, x);
  }

  lemma QuietStepKeepsProducers(s: Sys, t: Sys)
    requires ProducersOk(s)
    requires t.q.cfg == s.q.cfg && (s.q.closed ==> t.q.closed)
    requires forall p :: By(p, t.h.accepted) == By(p, s.h.accepted)
    requires t.h.refused == s.h.refused && t.h.offered == s.h.offered
    requires forall p :: Pending(t, p) == Pending(s, p)
    ensures ProducersOk(t)
  {
    forall p ensures ProducerOk(t, p, Pending(t, p)) {
      assert ProducerOk(s, p, Pending(s, p));
    }
  }

  // The offer is made: p's new item follows everything p offered before.
  lemma OfferAddsTail(s: Sys, s1: Sys, p: Pid, item: Item)
    requires ProducerOk(s, p, []) && s1.q == s.q && s1.h.accepted == s.h.accepted && s1.h.refused == s.h.refused
    requires Get(s1.h.offered, p) == Get(s.h.offered, p) + [item]
    ensures ProducerOk(s1, p, [item])
  {
    assert Outcome(s, p) + [] == Outcome(s, p);
    SubsequenceRefl([item]);
    SubsequenceAppend(Outcome(s, p), Get(s.h.offered, p), [item], [item]);
  }

  lemma PushStartKeepsProducers(s: Sys, p: Pid, item: Item)
    requires Q.ValidState(s.q) && ProducersOk(s) && p !in s.blocked
    ensures ProducersOk(Next(s, PushStart(p, item)))
  {
    var t := Next(s, PushStart(p, item));
    var s1 := Offer(s, p, item);
    assert ProducerOk(s, p, Pending(s, p));
    OfferAddsTail(s, s1, p, item);
    AttemptKeepsProducer(s1, p, item);
    forall x | x != p ensures ProducerOk(t, x, Pending(t, x)) {
      assert ProducerOk(s, x, Pending(s, x));
      assert ProducerOk(s1, x, Pending(s1, x));
      AttemptKeepsOthers(s1, p, item, x);
    }
  }

  lemma ResumeKeepsProducers(s: Sys, p: Pid)
    requires Q.ValidState(s.q) && ProducersOk(s) && IsWoken(s, p)
    ensures ProducersOk(Next(s, Resume(p)))
  {
    var t := Next(s, Resume(p));
    var item := s.blocked[p].item;
    assert ProducerOk(s, p, Pending(s, p));
    AttemptKeepsProducer(s, p, item);
    forall x | x != p ensures ProducerOk(t, x, Pending(t, x)) {
      assert ProducerOk(s, x, Pending(s, x));
      AttemptKeepsOthers(s, p, item, x);
    }
  }

  lemma InternalPushKeepsBy(s: Sys, rec: Record, p: Pid)
    requires Q.ValidState(s.q)
    ensures By(p, Next(s, InternalPush(rec)).h.accepted) == By(p, s.h.accepted)
  {
    var t := Next(s, InternalPush(rec));
    if Q.PushInternal(s.q, rec).1 {
      assert t.h.accepted[..|s.h.accepted|] == s.h.accepted;
    }
  }

  lemma NextKeepsProducers(s: Sys, a: Action)
    requires Q.ValidState(s.q) && ProducersOk(s) && Enabled(s, a)
    ensures ProducersOk(Next(s, a))
  {
    match a
    case PushStart(p, item) => PushStartKeepsProducers(s, p, item);
    case Resume(p) => ResumeKeepsProducers(s, p);
    case InternalPush(rec) =>
      forall p ensures By(p, Next(s, a).h.accepted) == By(p, s.h.accepted) {
        InternalPushKeepsBy(s, rec, p);
      }
      QuietStepKeepsProducers(s, Next(s, a));
    case _ => QuietStepKeepsProducers(s, Next(s, a));
  }

  /* ---- All of it, over every run ---- */

  ghost predicate Sound(s: Sys, strip0: Option<Ansi.State>) {
    Safe(s) && QueueHistory(s) && DropsBalance(s) && LogFaithful(s, strip0) && ProducersOk(s)
  }

  lemma NextKeepsSound(s: Sys, a: Action, strip0: Option<Ansi.State>)
    requires Sound(s, strip0) && Enabled(s, a)
    ensures Sound(Next(s, a), strip0)
  {
    NextKeepsSafe(s, a);
    NextKeepsQueueHistory(s, a);
    NextKeepsDropsBalance(s, a);
    NextKeepsLogFaithful(s, a, strip0);
    NextKeepsProducers(s, a);
  }

  lemma InitIsSound(cfg: Q.QueueConfig, stripAnsi: bool)
    requires ValidConfig(cfg)
    ensures Sound(Init(cfg, stripAnsi), Init(cfg, stripAnsi).strip)
  {
  }

  lemma {:induction false} RunKeepsSound(s: Sys, acts: seq<Action>, strip0: Option<Ansi.State>)
    requires Sound(s, strip0) && Run(s, acts).Some?
    ensures Sound(Run(s, acts).value, strip0)
    ensures Run(s, acts).value.q.cfg == s.q.cfg
  {
    if acts != [] {
      RunKeepsSound(s, acts[..|acts| - 1], strip0);
      var mid := Run(s, acts[..|acts| - 1]).value;
      NextKeepsSound(mid, acts[|acts| - 1], strip0);
      NextKeepsConfig(mid, acts[|acts| - 1]);
    }
  }

  lemma RunsAreSound(cfg: Q.QueueConfig, stripAnsi: bool, acts: seq<Action>, s: Sys)
    requires ValidConfig(cfg) && Run(Init(cfg, stripAnsi), acts) == Some(s)
    ensures Sound(s, Init(cfg, stripAnsi).strip) && s.q.cfg == cfg
  {
    InitIsSound(cfg, stripAnsi);
    RunKeepsSound(Init(cfg, stripAnsi), acts, Init(cfg, stripAnsi).strip);
  }
}
