/**
 writer.go as it runs, against the ring of queue.go. Other goroutines run between any two steps of the
 writer: a script says what they do, and an oracle says whether each sink call succeeds. Every execution
 is shown to be a run of the protocol, so everything proved of all runs holds of the code's own fields.
 */
module WriterLoop {
  import opened LogRecords
  import P = Protocol
  import S = ProtocolSafety
  import H = ProtocolHistory
  import Acc = ProtocolAccounting
  import Delivery
  import Q = QueueSpec
  import RingQueue
  import Ansi

  // Steps of the other goroutines.
  datatype EnvStep = Push(p: P.Pid, item: P.Item) | Resume(p: P.Pid) | PushInternal(rec: Record) | Close

  // What happens before one step of the writer; tick: the flush ticker has fired.
  datatype Block = Block(steps: seq<EnvStep>, tick: bool)

  datatype Result = ReturnedNil | ReturnedError | StillParked

  // The action of the protocol that a step is now, if it is possible.
  function ActionOf(s: P.Sys, e: EnvStep): Option<P.Action> {
    match e
    case Push(p, item) => if p !in s.blocked then Some(P.PushStart(p, item)) else None
    case Resume(p) => if P.IsWoken(s, p) then Some(P.Resume(p)) else None
    case PushInternal(rec) => Some(P.InternalPush(rec))
    case Close => Some(P.CloseQueue)
  }

  function After(s: P.Sys, e: EnvStep): P.Sys {
    if Q.ValidState(s.q) && ActionOf(s, e).Some? then P.Next(s, ActionOf(s, e).value) else s
  }

  // All steps, one after the other.
  function AfterAll(s: P.Sys, es: seq<EnvStep>): P.Sys {
    if es == [] then s else After(AfterAll(s, es[..|es| - 1]), es[|es| - 1])
  }

  class Writer {
    const q: RingQueue.Queue
    const stripper: Ansi.AnsiStripper?
    var blocked: map<P.Pid, P.Blocked>
    var log: seq<P.Entry>
    var sinkCloses: nat
    var errorReports: nat
    var script: seq<Block>
    var oracle: seq<bool>
    var now: int

    ghost var sys: P.Sys

    ghost function Footprint(): set<object>
      reads this
    {
      {this, q, q.records} + (if stripper == null then {} else {stripper})
    }

    // The fields are a state that some run of the protocol reaches.
    ghost predicate Coupled()
      reads this, q, q.records
    {
      && q.Valid()
      && P.Reachable(P.Init(sys.q.cfg, stripper != null), sys)
      && sys.q == q.Abs()
      && sys.blocked == blocked
      && sys.log == log
      && sys.sinkCloses == sinkCloses
    }

    // After a sink error the stripper is not used any more.
    ghost predicate StripperInStep()
      reads this, stripper
    {
      S.SinkFailed(sys) || sys.strip == (if stripper == null then None else Some(stripper.state))
    }

    ghost predicate Valid()
      reads this, q, q.records, stripper
    {
      Coupled() && StripperInStep()
    }

    constructor (maxRecords: nat, maxBytes: nat, overflow: Q.Overflow, stripAnsi: bool,
                 script: seq<Block>, oracle: seq<bool>)
      requires maxRecords > 0
      ensures Valid() && sys.w == P.Parked && errorReports == 0
      ensures sys.q.cfg == Q.QueueConfig(maxRecords, maxBytes, overflow)
      ensures fresh(Footprint())
    {
      var queue := new RingQueue.Queue(maxRecords, maxBytes, overflow);
      q := queue;
      if stripAnsi {
        var s := new Ansi.AnsiStripper();
        stripper := s;
      } else {
        stripper := null;
      }
      blocked, log, sinkCloses := map[], [], 0;
      errorReports, now := 0, 0;
      this.script, this.oracle := script, oracle;
      sys := P.Init(Q.QueueConfig(maxRecords, maxBytes, overflow), stripAnsi);
    }

    // Takes one protocol step; the caller makes the fields match.
    ghost method Advance(a: P.Action)
      requires P.Reachable(P.Init(sys.q.cfg, stripper != null), sys)
      requires Q.ValidState(sys.q) && P.Enabled(sys, a)
      modifies this`sys
      ensures sys == P.Next(old(sys), a) && sys.q.cfg == old(sys.q.cfg)
      ensures P.Reachable(P.Init(sys.q.cfg, stripper != null), sys)
    {
      S.NextKeepsConfig(sys, a);
      P.ReachableNext(P.Init(sys.q.cfg, stripper != null), sys, a);
      sys := P.Next(sys, a);
    }

    // The same for one evaluation of Push.
    ghost method AdvancePush(a: P.Action, p: P.Pid, item: P.Item)
      requires Coupled() && P.Enabled(sys, a)
      requires a == P.PushStart(p, item) || (a == P.Resume(p) && item == sys.blocked[p].item)
      modifies this`sys
      ensures var (q', r) := Q.Push(old(sys).q, item.meta, item.line);
              && sys.q == q'
              && sys.blocked == if r == Q.MustWait then old(blocked)[p := P.Blocked(item, false)] else old(blocked) - {p}
      ensures sys.w == old(sys).w && sys.strip == old(sys).strip && sys.log == log && sys.sinkCloses == sinkCloses
      ensures sys.q.cfg == old(sys).q.cfg && sys == P.Next(old(sys), a)
      ensures P.Reachable(P.Init(sys.q.cfg, stripper != null), sys)
    {
      if a.PushStart? {
        S.AttemptEffect(P.Offer(sys, p, item), p, item);
      } else {
        S.AttemptEffect(sys, p, item);
      }
      Advance(a);
    }

    // One evaluation of Push with the mutex held, by a producer that has item in play.
    method PushOnce(ghost a: P.Action, p: P.Pid, item: P.Item)
      requires Coupled() && P.Enabled(sys, a)
      requires a == P.PushStart(p, item) || (a == P.Resume(p) && item == sys.blocked[p].item)
      modifies this`blocked, this`sys, q, q.records
      ensures Coupled() && sys.w == old(sys.w) && sys.q.cfg == old(sys.q.cfg) && sys.strip == old(sys.strip)
      ensures sys == P.Next(old(sys), a)
    {
      AdvancePush(a, p, item);
      hide P.Next;
      var r := q.Push(item.meta, item.line);
      if r == Q.MustWait {
        blocked := blocked[p := P.Blocked(item, false)];
      } else {
        blocked := blocked - {p};
      }
    }

    method InternalPushOnce(rec: Record)
      requires Coupled()
      modifies this`blocked, this`sys, q, q.records
      ensures Coupled() && sys.w == old(sys.w) && sys.q.cfg == old(sys.q.cfg) && sys.strip == old(sys.strip)
      ensures sys == P.Next(old(sys), P.InternalPush(rec))
    {
      Advance(P.InternalPush(rec));
      var _ := q.PushInternal(rec);
    }

    method CloseOnce()
      requires Coupled()
      modifies this`blocked, this`sys, q, q.records
      ensures Coupled() && sys.w == old(sys.w) && sys.q.cfg == old(sys.q.cfg) && sys.strip == old(sys.strip)
      ensures sys == P.Next(old(sys), P.CloseQueue)
    {
      Advance(P.CloseQueue);
      CloseQueue();
    }

    // A step of another goroutine, if it is possible now.
    method EnvAct(e: EnvStep)
      requires Coupled()
      modifies this`blocked, this`sys, q, q.records
      ensures Coupled() && sys.w == old(sys.w) && sys.q.cfg == old(sys.q.cfg) && sys.strip == old(sys.strip)
      ensures sys == After(old(sys), e)
    {
      hide P.Next;
      match e {
        case Push(p, item) =>
          if p !in blocked {
            PushOnce(P.PushStart(p, item), p, item);
          }
        case Resume(p) =>
          if p in blocked && blocked[p].woken {
            PushOnce(P.Resume(p), p, blocked[p].item);
          }
        case PushInternal(rec) => InternalPushOnce(rec);
        case Close => CloseOnce();
      }
    }

    // q.Close with its broadcast.
    method CloseQueue()
      requires q.Valid()
      modifies q, this`blocked
      ensures q.Valid() && q.Abs() == Q.Close(old(q.Abs()))
      ensures blocked == if old(q.closed) then old(blocked) else P.WakeAll(old(blocked))
    {
      if !q.closed {
        blocked := P.WakeAll(blocked);
      }
      q.Close();
    }

    // The other goroutines run until the writer's next step.
    method Interfere()
      requires Coupled()
      modifies this`blocked, this`sys, this`script, q, q.records
      ensures Coupled() && sys.w == old(sys.w) && sys.q.cfg == old(sys.q.cfg) && sys.strip == old(sys.strip)
      ensures script == if old(script) == [] then [] else old(script)[1..]
      ensures sys == if old(script) == [] then old(sys) else AfterAll(old(sys), old(script)[0].steps)
    {
      if script == [] {
        return;
      }
      var steps := script[0].steps;
      script := script[1..];
      hide After;
      for i := 0 to |steps|
        invariant sys == AfterAll(old(sys), steps[..i])
        invariant Coupled() && sys.w == old(sys.w) && sys.q.cfg == old(sys.q.cfg) && sys.strip == old(sys.strip)
        invariant script == old(script)[1..]
      {
        assert steps[..i + 1][..i] == steps[..i];
        EnvAct(steps[i]);
      }
      assert steps[..|steps|] == steps;
    }

    // Whether the next sink call succeeds; an exhausted oracle answers yes.
    method SinkAnswers() returns (ok: bool)
      modifies this`oracle
    {
      if oracle == [] {
        return true;
      }
      ok := oracle[0];
      oracle := oracle[1..];
    }

    method TakeDropsStep() returns (d: Q.DropStats)
      requires Valid() && (sys.w.Emit? || sys.w.EmitFinal?)
      modifies this`sys, q`drops
      ensures Valid() && sys.q == Q.TakeDrops(old(sys).q).0 && d == old(sys).q.drops
      ensures sys.w == if d.records > 0
                       then (if old(sys.w.Emit?) then P.Summarizing(old(sys.w).open, d) else P.SummarizingFinal(d))
                       else (if old(sys.w.Emit?) then P.BeforePop(old(sys.w).open) else P.ClosingSink)
    {
      Advance(P.TakeDrops);
      d := q.TakeDrops();
    }

    ghost method AdvanceSummary(ok: bool, time: int, e: P.Entry)
      requires Valid() && (sys.w.Summarizing? || sys.w.SummarizingFinal?)
      requires e == P.Summary(sys.w.drops, P.SummaryRecord(sys.w.drops, time))
      modifies this`sys
      ensures sys.(w := old(sys).w, log := log) == old(sys)
      ensures sys.log == if ok then log + [e] else log
      ensures sys.w == if old(sys.w.Summarizing?) then (if ok then P.BeforePop(old(sys.w).open) else P.Failing)
                       else (if ok then P.ClosingSink else P.Failed)
      ensures P.Reachable(P.Init(sys.q.cfg, stripper != null), sys)
    {
      Advance(P.WriteSummary(ok, time));
    }

    // The sink is given one summary record.
    method SummaryStep(d: Q.DropStats) returns (ok: bool)
      requires Valid() && (sys.w.Summarizing? || sys.w.SummarizingFinal?) && sys.w.drops == d
      modifies this`sys, this`log, this`oracle, this`now
      ensures Valid() && sys.q == old(sys.q)
      ensures sys.w == if old(sys.w.Summarizing?) then (if ok then P.BeforePop(old(sys.w).open) else P.Failing)
                       else (if ok then P.ClosingSink else P.Failed)
    {
      var entry := P.Summary(d, P.SummaryRecord(d, now));
      ok := SinkAnswers();
      AdvanceSummary(ok, now, entry);
      now := now + 1;
      if ok {
        log := log + [entry];
      }
    }

    // emitDropSummary: take the drops, and if there are any write one summary record.
    method EmitDropSummary() returns (ok: bool)
      requires Valid() && (sys.w.Emit? || sys.w.EmitFinal?)
      modifies this`sys, this`log, this`oracle, this`now, this`blocked, this`script, q, q.records
      ensures Valid() && sys.q.cfg == old(sys.q.cfg)
      ensures ok && old(sys.w.Emit?) ==> sys.w == P.BeforePop(old(sys.w).open)
      ensures ok && old(sys.w.EmitFinal?) ==> sys.w == P.ClosingSink
      ensures !ok ==> sys.w == if old(sys.w.Emit?) then P.Failing else P.Failed
      ensures |script| <= |old(script)|
      ensures old(script) == [] ==> sys.q.contents == old(sys.q.contents) && sys.q.wake == old(sys.q.wake)
    {
      Interfere();
      var drops := TakeDropsStep();
      if drops.records == 0 {
        return true;
      }
      Interfere();
      ok := SummaryStep(drops);
    }

    ghost method AdvancePop(signalled: Option<P.Pid>)
      requires Coupled() && P.Enabled(sys, P.PopNext(signalled))
      modifies this`sys
      ensures var (q', rec) := Q.Pop(old(sys).q);
              && sys.q == q'
              && sys.w == (if rec.None? then (if old(sys.w).open then P.Parked else P.EmitFinal)
                           else P.Writing(old(sys.w).open, rec.value))
      ensures sys.blocked == if signalled.Some? then blocked[signalled.value := blocked[signalled.value].(woken := true)]
                             else blocked
      ensures sys.strip == old(sys).strip && sys.log == log && sys.sinkCloses == sinkCloses
      ensures P.Reachable(P.Init(sys.q.cfg, stripper != null), sys)
    {
      Advance(P.PopNext(signalled));
    }

    // q.Pop with its Signal: one sleeping producer, if there is one, is woken.
    method PopStep() returns (rec: Option<Record>)
      requires Valid() && sys.w.BeforePop?
      modifies this`blocked, this`sys, q, q.records
      ensures Valid() && (sys.q, rec) == Q.Pop(old(sys).q)
      ensures sys.w == if rec.None? then (if old(sys.w).open then P.Parked else P.EmitFinal)
                       else P.Writing(old(sys.w).open, rec.value)
    {
      var signalled := PickSleeper();
      AdvancePop(signalled);
      if signalled.Some? {
        blocked := blocked[signalled.value := blocked[signalled.value].(woken := true)];
      }
      rec := q.Pop();
    }

    // Whom the Signal in Pop reaches: any sleeping producer, nobody if the queue is empty.
    method PickSleeper() returns (p: Option<P.Pid>)
      requires Coupled() && sys.w.BeforePop?
      ensures P.Enabled(sys, P.PopNext(p))
    {
      if q.queued > 0 && exists x :: x in blocked && !blocked[x].woken {
        var x :| x in blocked && !blocked[x].woken;
        return Some(x);
      }
      return None;
    }

    // Strips what is not internal.
    method Clean(rec: Record) returns (out: Record, ghost strip': Option<Ansi.State>)
      requires StripperInStep() && !S.SinkFailed(sys)
      modifies stripper
      ensures (strip', out) == P.Cleaned(sys.strip, rec)
      ensures strip' == (if stripper == null then None else Some(stripper.state))
    {
      if stripper == null || rec.end == Internal {
        return rec, sys.strip;
      }
      var line := stripper.Strip(rec.line);
      out, strip' := rec.(line := line), Some(stripper.state);
    }

    // The sink's answer to one dequeued record.
    method GiveToSink(rec: Record, out: Record, ghost strip': Option<Ansi.State>) returns (ok: bool)
      requires Coupled() && sys.w.Writing? && sys.w.rec == rec && (strip', out) == P.Cleaned(sys.strip, rec)
      modifies this`sys, this`log, this`oracle
      ensures Coupled() && sys.q == old(sys.q)
      ensures ok ==> sys.strip == strip'
      ensures sys.w == if ok then P.Emit(old(sys.w).open) else P.Failing
    {
      ok := SinkAnswers();
      Advance(P.WriteNext(ok));
      if ok {
        log := log + [P.Popped(rec, out)];
      }
    }

    method WriteStep(rec: Record) returns (ok: bool)
      requires Valid() && sys.w.Writing? && sys.w.rec == rec
      modifies this`sys, this`log, this`oracle, stripper
      ensures Valid() && sys.q == old(sys.q)
      ensures sys.w == if ok then P.Emit(old(sys.w).open) else P.Failing
    {
      var out, strip' := Clean(rec);
      ok := GiveToSink(rec, out, strip');
    }

    // The rest of one turn of drainQueue's loop, with the popped record in hand.
    method WriteAndReport(rec: Record) returns (ok: bool)
      requires Valid() && sys.w.Writing? && sys.w.rec == rec
      modifies this`sys, this`log, this`oracle, this`now, this`blocked, this`script, q, q.records, stripper
      ensures Valid() && sys.q.cfg == old(sys.q.cfg)
      ensures sys.w == if ok then P.BeforePop(old(sys.w).open) else P.Failing
      ensures |script| <= |old(script)|
      ensures old(script) == [] ==> sys.q.wake == old(sys.q.wake) && sys.q.contents == old(sys.q.contents)
    {
      Interfere();
      ok := WriteStep(rec);
      if ok {
        ok := EmitDropSummary();
      }
    }

    // One turn of drainQueue's loop. Empty: there was nothing to pop.
    method DrainOne() returns (empty: bool, ok: bool)
      requires Valid() && sys.w.BeforePop?
      modifies this`sys, this`log, this`oracle, this`now, this`blocked, this`script, q, q.records, stripper
      ensures Valid() && sys.q.cfg == old(sys.q.cfg)
      ensures sys.w == if empty then (if old(sys.w).open then P.Parked else P.EmitFinal)
                       else if ok then P.BeforePop(old(sys.w).open) else P.Failing
      ensures |script| <= |old(script)|
      ensures old(script) == [] ==> sys.q.wake == old(sys.q.wake)
      ensures empty ==> ok && (|script| < |old(script)| || |sys.q.contents| <= |old(sys.q.contents)|)
      ensures !empty ==> |script| < |old(script)| || |sys.q.contents| < |old(sys.q.contents)|
    {
      Interfere();
      var rec := PopStep();
      if rec.None? {
        return true, true;
      }
      empty := false;
      ok := WriteAndReport(rec.value);
    }

    // drainQueue.
    method DrainQueue() returns (ok: bool)
      requires Valid() && sys.w.Emit?
      modifies this`sys, this`log, this`oracle, this`now, this`blocked, this`script, q, q.records, stripper
      ensures Valid() && sys.q.cfg == old(sys.q.cfg)
      ensures sys.w == if !ok then P.Failing else if old(sys.w).open then P.Parked else P.EmitFinal
      ensures |script| <= |old(script)|
      ensures old(script) == [] ==> sys.q.wake == old(sys.q.wake)
    {
      ghost var open := sys.w.open;
      ok := EmitDropSummary();
      if !ok {
        return;
      }
      var empty := false;
      while !empty && ok
        invariant Valid() && sys.q.cfg == old(sys.q.cfg)
        invariant sys.w == if empty then (if open then P.Parked else P.EmitFinal)
                           else if ok then P.BeforePop(open) else P.Failing
        invariant empty ==> ok
        invariant |script| <= |old(script)|
        invariant old(script) == [] ==> sys.q.wake == old(sys.q.wake)
        decreases |script|, |sys.q.contents|, !empty && ok
      {
        empty, ok := DrainOne();
      }
    }

    // report, with its sync.Once, followed by q.Close where the source does both.
    method ReportAndClose()
      requires Valid() && sys.w.Failing?
      modifies this`sys, this`blocked, this`script, this`errorReports, q, q.records
      ensures Valid() && sys.w == P.Failed && sys.q.cfg == old(sys.q.cfg)
      ensures errorReports == old(errorReports) + 1
    {
      errorReports := errorReports + 1;
      Interfere();
      Advance(P.FailClose);
      CloseQueue();
    }

    method CloseSinkStep() returns (ok: bool)
      requires Valid() && sys.w.ClosingSink?
      modifies this`sys, this`oracle, this`sinkCloses
      ensures Valid() && sys.w == (if ok then P.Done else P.Failed) && sys.q.cfg == old(sys.q.cfg)
    {
      ok := SinkAnswers();
      Advance(P.CloseSink(ok));
      sinkCloses := sinkCloses + 1;
    }

    // The tail of RunWriterWithStats after the channel was seen closed: last summary, then sink.Close.
    method Finish() returns (ok: bool)
      requires Valid() && sys.w.EmitFinal?
      modifies this`sys, this`log, this`oracle, this`now, this`blocked, this`script, this`sinkCloses, q, q.records
      ensures Valid() && sys.w == (if ok then P.Done else P.Failed) && sys.q.cfg == old(sys.q.cfg)
    {
      ok := EmitDropSummary();
      if !ok {
        return;
      }
      Interfere();
      ok := CloseSinkStep();
    }

    // The flush ticker fired while the writer was in its select.
    method FlushStep() returns (ok: bool)
      requires Valid() && sys.w.Parked?
      modifies this`sys, this`oracle
      ensures Valid() && sys.q == old(sys.q) && sys.w == if ok then P.Parked else P.Failing
    {
      ok := SinkAnswers();
      Advance(P.Tick(ok));
    }

    // A receive that does not block; open is the value received.
    method ReceiveStep() returns (open: Option<bool>)
      requires Valid() && sys.w.Parked?
      modifies this`sys, q`wakeToken
      ensures Valid() && sys.q.cfg == old(sys.q.cfg)
      ensures open.None? ==> sys == old(sys) && !sys.q.wake.token && !sys.q.closed
      ensures open.Some? ==> sys.w == P.Emit(open.value)
      ensures open == Some(true) ==> old(sys.q.wake.token) && !sys.q.wake.token
    {
      open := q.TryReceiveWake();
      if open.Some? {
        Advance(P.Receive);
      }
    }

    method FlushCase() returns (r: Option<Result>)
      requires Valid() && sys.w.Parked?
      modifies this`sys, this`oracle, this`blocked, this`script, this`errorReports, q, q.records
      ensures Valid() && sys.q.cfg == old(sys.q.cfg)
      ensures sys.w == EndOf(r)
      ensures errorReports == old(errorReports) + if r == Some(ReturnedError) then 1 else 0
      ensures r.None? || r == Some(ReturnedError)
      ensures r.None? ==> script == old(script)
    {
      var ok := FlushStep();
      if !ok {
        ReportAndClose();
      }
      return if ok then None else Some(ReturnedError);
    }

    // The receive delivered open: drain, and finish if the channel was seen closed.
    method WakeCase(open: bool) returns (r: Option<Result>)
      requires Valid() && sys.w == P.Emit(open)
      modifies this`sys, this`log, this`oracle, this`now, this`blocked, this`script, this`sinkCloses,
               this`errorReports, q, q.records, stripper
      ensures Valid() && sys.q.cfg == old(sys.q.cfg)
      ensures sys.w == EndOf(r)
      ensures errorReports == old(errorReports) + if r == Some(ReturnedError) then 1 else 0
      ensures r != Some(StillParked) && (r.None? ==> open && |script| <= |old(script)|)
      ensures old(script) == [] && r.None? ==> sys.q.wake == old(sys.q.wake)
    {
      var ok := DrainQueue();
      if !ok {
        ReportAndClose();
        return Some(ReturnedError);
      }
      if open {
        return None;
      }
      ok := Finish();
      if !ok {
        errorReports := errorReports + 1;
      }
      return Some(if ok then ReturnedNil else ReturnedError);
    }

    // The receive from Wake; when it would block, the select goes round again unless nothing is left to
    // happen.
    method ReceiveCase(idle: bool) returns (r: Option<Result>)
      requires Valid() && sys.w.Parked?
      modifies this`sys, this`log, this`oracle, this`now, this`blocked, this`script, this`sinkCloses,
               this`errorReports, q, q.records, stripper
      ensures Valid() && sys.q.cfg == old(sys.q.cfg)
      ensures sys.w == EndOf(r)
      ensures errorReports == old(errorReports) + if r == Some(ReturnedError) then 1 else 0
      ensures r == Some(StillParked) ==> idle && !sys.q.wake.token && !sys.q.closed && script == old(script)
      ensures r.None? ==> |script| <= |old(script)| && (old(script) == [] ==> !sys.q.wake.token)
      ensures r.None? && idle ==> old(sys.q.wake.token)
    {
      var open := ReceiveStep();
      if open.None? {
        return if idle then Some(StillParked) else None;
      }
      r := WakeCase(open.value);
    }

    // The select and what its case does, up to going round again (None).
    method SelectOnce() returns (r: Option<Result>)
      requires Valid() && sys.w.Parked?
      modifies this`sys, this`log, this`oracle, this`now, this`blocked, this`script, this`sinkCloses,
               this`errorReports, q, q.records, stripper
      ensures Valid() && sys.q.cfg == old(sys.q.cfg)
      ensures sys.w == EndOf(r)
      ensures errorReports == old(errorReports) + if r == Some(ReturnedError) then 1 else 0
      ensures r == Some(StillParked) ==> !sys.q.wake.token && !sys.q.closed && script == []
      ensures r.None? ==> |script| < |old(script)| || (|script| <= |old(script)| && old(sys.q.wake.token) && !sys.q.wake.token)
    {
      var idle, tick := script == [], script != [] && script[0].tick;
      Interfere();
      if tick {
        r := FlushCase();
        return;
      }
      r := ReceiveCase(idle);
    }

    static function EndOf(r: Option<Result>): P.WriterPc {
      match r
      case None => P.Parked
      case Some(ReturnedNil) => P.Done
      case Some(ReturnedError) => P.Failed
      case Some(StillParked) => P.Parked
    }

    // RunWriterWithStats. StillParked: the script is over and the writer would wait in its select.
    method RunWriter() returns (r: Result)
      requires Valid() && sys.w.Parked?
      modifies this`sys, this`log, this`oracle, this`now, this`blocked, this`script, this`sinkCloses,
               this`errorReports, q, q.records, stripper
      ensures Valid() && sys.q.cfg == old(sys.q.cfg) && sys.w == EndOf(Some(r))
      ensures errorReports == old(errorReports) + if r == ReturnedError then 1 else 0
      ensures r == StillParked ==> q.Contents() == [] && !q.closed && script == []
      ensures r == ReturnedNil ==>
                && q.Contents() == [] && q.drops.records == 0 && q.closed && sinkCloses == 1
                && Acc.SummaryRecords(log) == q.counters.droppedRecords
                && Acc.SummaryBytes(log) == q.counters.droppedBytes
                && H.Increasing(Acc.RawOf(log))
                && (q.overflow == Q.Block ==> Acc.SummaryRecords(log) == 0 && |Acc.RawOf(log)| == q.nextSeq)
    {
      var end: Option<Result> := None;
      while end.None?
        invariant Valid() && sys.q.cfg == old(sys.q.cfg) && sys.w == EndOf(end)
        invariant errorReports == old(errorReports) + if end == Some(ReturnedError) then 1 else 0
        invariant end == Some(StillParked) ==> !sys.q.wake.token && !sys.q.closed && script == []
        decreases end.None?, |script|, sys.q.wake.token
      {
        end := SelectOnce();
      }
      r := end.value;
      match r {
        case StillParked => ParkedFacts();
        case ReturnedError =>
        case ReturnedNil =>
          DoneFacts();
          if q.overflow == Q.Block {
            DoneFactsBlock();
          }
      }
    }

    // What the results about all runs say of the fields.
    lemma ParkedFacts()
      requires Valid() && sys.w.Parked? && !q.wakeToken && !q.closed
      ensures q.Contents() == []
    {
      var cfg, strip := sys.q.cfg, stripper != null;
      P.ReachableIsEndOfRun(P.Init(cfg, strip), sys);
      var acts :| P.Run(P.Init(cfg, strip), acts) == Some(sys);
      S.RunsAreSafe(cfg, strip, acts);
    }

    lemma DoneFacts()
      requires Valid() && sys.w.Done?
      ensures q.Contents() == [] && q.drops.records == 0 && q.closed && sinkCloses == 1
      ensures Acc.SummaryRecords(log) == q.counters.droppedRecords
      ensures Acc.SummaryBytes(log) == q.counters.droppedBytes
      ensures H.Increasing(Acc.RawOf(log))
    {
      var cfg, strip := sys.q.cfg, stripper != null;
      P.ReachableIsEndOfRun(P.Init(cfg, strip), sys);
      var acts :| P.Run(P.Init(cfg, strip), acts) == Some(sys);
      S.RunsAreSafe(cfg, strip, acts);
      Delivery.DropConservation(cfg, strip, acts, sys);
      Delivery.WrittenSequenceNumbers(cfg, strip, acts, sys);
    }

    lemma DoneFactsBlock()
      requires Valid() && sys.w.Done? && q.overflow == Q.Block
      ensures Acc.SummaryRecords(log) == 0 && |Acc.RawOf(log)| == q.nextSeq
    {
      var cfg, strip := sys.q.cfg, stripper != null;
      P.ReachableIsEndOfRun(P.Init(cfg, strip), sys);
      var acts :| P.Run(P.Init(cfg, strip), acts) == Some(sys);
      Delivery.BlockIsLossless(cfg, strip, acts, sys);
    }
  }
}
