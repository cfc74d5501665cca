/**
 The queue and its writer as a concurrent protocol (queue.go, writer.go). One action is one critical
 section of the queue's mutex, or one call into the sink. Any number of producers, outside closers and
 the writer interleave arbitrarily; a run is any sequence of enabled actions.
 */
module Protocol {
  import opened LogRecords
  import Q = QueueSpec
  import Ansi

  type Pid = nat

  // The arguments of one Push.
  datatype Item = Item(meta: RecordMeta, line: bytes)

  // A producer inside notFull.Wait: still asleep, or woken and about to test the guard again.
  datatype Blocked = Blocked(item: Item, woken: bool)

  // Where the writer goroutine is. "open" is the value the last receive from Wake gave.
  datatype WriterPc =
    | Parked                                          // in the select
    | Emit(open: bool)                                // drainQueue: about to take the drops
    | Summarizing(open: bool, drops: Q.DropStats)     // drainQueue: about to write the summary
    | BeforePop(open: bool)                           // drainQueue: about to pop
    | Writing(open: bool, rec: Record)                // drainQueue: popped, about to write
    | EmitFinal                                       // after the last drain: about to take the drops
    | SummarizingFinal(drops: Q.DropStats)
    | ClosingSink
    | Done                                            // returned nil
    | Failing                                         // a sink error was reported, about to close the queue
    | Failed                                          // returned the error

  // What the sink was given, with the dequeued record it came from.
  datatype Entry = Popped(raw: Record, written: Record) | Summary(drops: Q.DropStats, written: Record)

  datatype Tagged = Tagged(owner: Option<Pid>, rec: Record)

  // What happened so far; no action reads it.
  datatype History = History(
    accepted: seq<Tagged>,             // in order of acceptance; owner None is PushInternal
    passed: int,                       // position just after the last popped record in accepted
    popped: seq<Record>,
    evicted: seq<Record>,
    noRoom: seq<bytes>,                // lines of pre-close pushes that found no room
    offered: map<Pid, seq<Item>>,      // every Push a producer called, in order
    refused: map<Pid, seq<Item>>,      // those that returned false because the queue was closed
    oversize: bool)                    // some offered line exceeded maxBytes

  datatype Sys = Sys(
    q: Q.QueueState, blocked: map<Pid, Blocked>, w: WriterPc,
    strip: Option<Ansi.State>,         // None: ANSI sequences are kept
    log: seq<Entry>, sinkCloses: nat, h: History)

  datatype Action =
    | PushStart(p: Pid, item: Item)
    | Resume(p: Pid)
    | InternalPush(rec: Record)
    | CloseQueue
    | Tick(ok: bool)
    | Receive
    | TakeDrops
    | WriteSummary(ok: bool, now: int)
    | PopNext(signalled: Option<Pid>)
    | WriteNext(ok: bool)
    | CloseSink(ok: bool)
    | FailClose

  function Init(cfg: Q.QueueConfig, stripAnsi: bool): Sys {
    Sys(Q.EmptyQueue(cfg), map[], Parked, if stripAnsi then Some(Ansi.Normal) else None, [], 0,
        History([], 0, [], [], [], map[], map[], false))
  }

  function Get<K, V>(m: map<K, seq<V>>, k: K): seq<V> {
    if k in m then m[k] else []
  }

  function Recs(ts: seq<Tagged>): (rs: seq<Record>)
    ensures |rs| == |ts|
    ensures forall i :: 0 <= i < |ts| ==> rs[i] == ts[i].rec
  {
    seq(|ts|, i requires 0 <= i < |ts| => ts[i].rec)
  }

  function DropReason(policy: Option<Q.Overflow>): string {
    match policy
    case Some(DropOldest) => "queue_full_drop_oldest"
    case Some(DropNewest) => "queue_full_drop_newest"
    case _ => "queue_full"
  }

  function SummaryRecord(d: Q.DropStats, now: int): Record {
    ZERO_RECORD.(time := now, end := Internal, internalEvent := "dropped",
                 droppedRecords := d.records, droppedBytes := d.bytes, reason := DropReason(d.policy))
  }

  // The record handed to the sink: stripped unless internal, or unless ANSI is kept.
  function Cleaned(strip: Option<Ansi.State>, rec: Record): (Option<Ansi.State>, Record) {
    if strip.None? || rec.end == Internal then (strip, rec)
    else
      var (st, line) := Ansi.StripFrom(strip.value, rec.line);
      (Some(st), rec.(line := line))
  }

  predicate IsWaiting(s: Sys, p: Pid) { p in s.blocked && !s.blocked[p].woken }
  predicate IsWoken(s: Sys, p: Pid) { p in s.blocked && s.blocked[p].woken }

  predicate Enabled(s: Sys, a: Action) {
    match a
    case PushStart(p, _) => p !in s.blocked
    case Resume(p) => IsWoken(s, p)
    case InternalPush(_) => true
    case CloseQueue => true
    case Tick(_) => s.w.Parked?
    case Receive => s.w.Parked? && (s.q.wake.token || s.q.wake.closed)
    case TakeDrops => s.w.Emit? || s.w.EmitFinal?
    case WriteSummary(_, _) => s.w.Summarizing? || s.w.SummarizingFinal?
    case PopNext(signalled) =>
      && s.w.BeforePop?
      // Signal wakes one waiting producer if there is one
      && (match signalled
          case Some(p) => s.q.contents != [] && IsWaiting(s, p)
          case None => s.q.contents == [] || forall p :: p in s.blocked ==> s.blocked[p].woken)
    case WriteNext(_) => s.w.Writing?
    case CloseSink(_) => s.w.ClosingSink?
    case FailClose => s.w.Failing?
  }

  // p calls Push.
  function Offer(s: Sys, p: Pid, item: Item): Sys {
    s.(h := s.h.(offered := s.h.offered[p := Get(s.h.offered, p) + [item]],
                 oversize := s.h.oversize || |item.line| > s.q.cfg.maxBytes))
  }

  // One evaluation of Push by producer p with the mutex held.
  function Attempt(s: Sys, p: Pid, item: Item): Sys
    requires Q.ValidState(s.q)
  {
    var (q', r) := Q.Push(s.q, item.meta, item.line);
    match r
    case MustWait => s.(blocked := s.blocked[p := Blocked(item, false)])
    case Accepted =>
      Q.AcceptedPush(s.q, item.meta, item.line);
      var k := |s.q.contents| + 1 - |q'.contents|;
      s.(q := q', blocked := s.blocked - {p},
         h := s.h.(accepted := s.h.accepted + [Tagged(Some(p), FromMeta(item.meta, item.line, s.q.nextSeq))],
                   evicted := s.h.evicted + s.q.contents[..k]))
    case Refused =>
      if s.q.closed then
        s.(blocked := s.blocked - {p},
           h := s.h.(refused := s.h.refused[p := Get(s.h.refused, p) + [item]]))
      else
        s.(q := q', blocked := s.blocked - {p}, h := s.h.(noRoom := s.h.noRoom + [item.line]))
  }

  function WakeAll(blocked: map<Pid, Blocked>): map<Pid, Blocked> {
    map p | p in blocked :: blocked[p].(woken := true)
  }

  function CloseNow(s: Sys): Sys {
    if s.q.closed then s else s.(q := Q.Close(s.q), blocked := WakeAll(s.blocked))
  }

  function Next(s: Sys, a: Action): Sys
    requires Q.ValidState(s.q) && Enabled(s, a)
  {
    match a
    case PushStart(p, item) =>
      Attempt(Offer(s, p, item), p, item)
    case Resume(p) => Attempt(s, p, s.blocked[p].item)
    case InternalPush(rec) =>
      var (q', accepted) := Q.PushInternal(s.q, rec);
      if accepted then
        s.(q := q', h := s.h.(accepted := s.h.accepted + [Tagged(None, rec.(seqNo := s.q.nextSeq))]))
      else s
    case CloseQueue => CloseNow(s)
    case Tick(ok) => if ok then s else s.(w := Failing)
    case Receive =>
      var (q', open) := Q.ReceiveWake(s.q);
      s.(q := q', w := Emit(open.Some? && open.value))
    case TakeDrops =>
      var (q', d) := Q.TakeDrops(s.q);
      s.(q := q',
         w := if s.w.EmitFinal? then (if d.records == 0 then ClosingSink else SummarizingFinal(d))
              else (if d.records == 0 then BeforePop(s.w.open) else Summarizing(s.w.open, d)))
    case WriteSummary(ok, now) =>
      var entry := Summary(s.w.drops, SummaryRecord(s.w.drops, now));
      if !ok then s.(w := if s.w.Summarizing? then Failing else Failed)
      else s.(log := s.log + [entry], w := if s.w.Summarizing? then BeforePop(s.w.open) else ClosingSink)
    case PopNext(signalled) =>
      var (q', rec) := Q.Pop(s.q);
      if rec.None? then s.(w := if s.w.open then Parked else EmitFinal)
      else
        s.(q := q', w := Writing(s.w.open, rec.value),
           blocked := if signalled.Some? then s.blocked[signalled.value := s.blocked[signalled.value].(woken := true)]
                      else s.blocked,
           h := s.h.(popped := s.h.popped + [rec.value],
                     passed := |s.h.accepted| - |s.q.contents| + 1))
    case WriteNext(ok) =>
      if !ok then s.(w := Failing)
      else
        var (strip', rec') := Cleaned(s.strip, s.w.rec);
        s.(strip := strip', log := s.log + [Popped(s.w.rec, rec')], w := Emit(s.w.open))
    case CloseSink(ok) => s.(sinkCloses := s.sinkCloses + 1, w := if ok then Done else Failed)
    case FailClose => CloseNow(s).(w := Failed)
  }

  // The state a run ends in; None if some action in it was not enabled.
  function Run(s: Sys, acts: seq<Action>): Option<Sys> {
    if acts == [] then Some(s)
    else
      var mid := Run(s, acts[..|acts| - 1]);
      var a := acts[|acts| - 1];
      if mid.Some? && Q.ValidState(mid.value.q) && Enabled(mid.value, a) then Some(Next(mid.value, a)) else None
  }

  lemma RunOneMore(init: Sys, acts: seq<Action>, s: Sys, a: Action)
    requires Run(init, acts) == Some(s) && Q.ValidState(s.q) && Enabled(s, a)
    ensures Run(init, acts + [a]) == Some(Next(s, a))
  {
    assert (acts + [a])[..|acts|] == acts;
  }

  ghost predicate ValidConfig(cfg: Q.QueueConfig) {
    cfg.maxRecords > 0
  }

  // A set of states that no action leaves.
  ghost predicate Inductive(inv: Sys -> bool) {
    forall s, a :: inv(s) && Q.ValidState(s.q) && Enabled(s, a) ==> inv(Next(s, a))
  }

  // s lies in every such set that contains the initial state.
  ghost predicate Reachable(init: Sys, s: Sys) {
    forall inv: Sys -> bool :: Inductive(inv) && inv(init) ==> inv(s)
  }

  lemma ReachableNext(init: Sys, s: Sys, a: Action)
    requires Reachable(init, s) && Q.ValidState(s.q) && Enabled(s, a)
    ensures Reachable(init, Next(s, a))
  {
    forall inv: Sys -> bool | Inductive(inv) && inv(init)
      ensures inv(Next(s, a))
    {
      assert inv(s);
    }
  }

  // That is: s is the end of some run.
  lemma ReachableIsEndOfRun(init: Sys, s: Sys)
    ensures Reachable(init, s) <==> exists acts :: Run(init, acts) == Some(s)
  {
    if Reachable(init, s) {
      var inv := (x: Sys) => exists acts :: Run(init, acts) == Some(x);
      forall x, a | inv(x) && Q.ValidState(x.q) && Enabled(x, a)
        ensures inv(Next(x, a))
      {
        var acts :| Run(init, acts) == Some(x);
        RunOneMore(init, acts, x, a);
      }
      assert Run(init, []) == Some(init);
      assert Inductive(inv) && inv(init);
    }
    if acts :| Run(init, acts) == Some(s) {
      RunEndsReachable(init, acts);
    }
  }

  lemma {:induction false} RunEndsReachable(init: Sys, acts: seq<Action>)
    requires Run(init, acts).Some?
    ensures Reachable(init, Run(init, acts).value)
  {
    if acts != [] {
      RunEndsReachable(init, acts[..|acts| - 1]);
      ReachableNext(init, Run(init, acts[..|acts| - 1]).value, acts[|acts| - 1]);
    }
  }
}
