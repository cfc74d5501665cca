/**
 The accept loop and the queue together: the framers of the connections are the queue's producers, and the
 queue is closed by the accept loop when the last of them is done (source_network.go). Such a run is an
 orderly one.
 */
module TcpShutdown {
  import opened LogRecords
  import opened Protocol
  import opened ProtocolSafety
  import Acc = ProtocolAccounting
  import C = Connections
  import Q = QueueSpec
  import Shutdown

  // A turn of the source, or an action of the queue.
  datatype Event = Net(turn: C.Turn) | Queue(action: Action)

  // The two meet here: only a running framer pushes, it is not inside Push when it has returned, and nobody
  // but the accept loop closes the queue.
  predicate Possible(source: C.TCPSource, s: Sys, e: Event)
    reads source
  {
    match e
    case Net(t) => source.Enabled(t) && (t.Remove? ==> t.conn !in s.blocked)
    case Queue(a) =>
      && Enabled(s, a) && !a.CloseQueue? && !a.FailClose?
      && (a.PushStart? ==> a.p < |source.stage| && source.stage[a.p].Serving?)
  }

  // The actions of the queue so far, and where they have led.
  datatype Trace = Trace(before: seq<Action>, closed: bool, after: seq<Action>, s: Sys) {
    function Actions(): seq<Action> {
      if closed then before + [CloseQueue] + after else before
    }

    function Add(a: Action, s': Sys): Trace {
      if closed then this.(after := after + [a], s := s') else this.(before := before + [a], s := s')
    }
  }

  ghost predicate TraceOk(init: Sys, tr: Trace) {
    && Run(init, tr.Actions()) == Some(tr.s)
    && (forall a :: a in tr.before ==> Shutdown.KeepsOpen(a))
    && (if tr.closed then Shutdown.Orderly(init, tr.before, tr.after) && tr.s.blocked == map[] else tr.after == [])
  }

  // Only framers that are running are inside Push, and the queue is closed when there is none.
  ghost predicate InStep(source: C.TCPSource, tr: Trace)
    reads source
  {
    && (forall p :: p in tr.s.blocked ==> p < |source.stage| && source.stage[p].Serving?)
    && source.queueClosed == tr.closed
  }

  lemma BlockedStep(s: Sys, a: Action)
    requires Q.ValidState(s.q) && Enabled(s, a)
    ensures forall p :: p in Next(s, a).blocked ==> p in s.blocked || (a.PushStart? && p == a.p)
  {
    match a
    case PushStart(p, item) => AttemptEffect(Offer(s, p, item), p, item);
    case Resume(p) => AttemptEffect(s, p, s.blocked[p].item);
    case _ =>
  }

  lemma AddKeepsTrace(init: Sys, tr: Trace, a: Action)
    requires TraceOk(init, tr) && Q.ValidState(tr.s.q) && Enabled(tr.s, a) && Shutdown.KeepsOpen(a)
    requires tr.closed ==> !a.PushStart?
    ensures TraceOk(init, tr.Add(a, Next(tr.s, a)))
  {
    RunOneMore(init, tr.Actions(), tr.s, a);
    hide Run, Next, Enabled;
    if tr.closed {
      Assoc(tr.before + [CloseQueue], tr.after, [a]);
      BlockedStep(tr.s, a);
    }
  }

  lemma CloseKeepsTrace(init: Sys, tr: Trace)
    requires TraceOk(init, tr) && Q.ValidState(tr.s.q) && !tr.closed && tr.s.blocked == map[]
    ensures TraceOk(init, tr.(closed := true, s := Next(tr.s, CloseQueue)))
  {
    RunOneMore(init, tr.before, tr.s, CloseQueue);
    NobodyWoken(tr.s);
    hide *;
    ClosedTrace(init, tr.before, tr.s, Next(tr.s, CloseQueue));
    assert tr.(closed := true, s := Next(tr.s, CloseQueue)) == Trace(tr.before, true, [], Next(tr.s, CloseQueue)) by {
      NothingAfter(init, tr);
    }
  }

  lemma NobodyWoken(s: Sys)
    requires Q.ValidState(s.q) && s.blocked == map[]
    ensures Next(s, CloseQueue).blocked == map[]
  {
  }

  lemma NothingAfter(init: Sys, tr: Trace)
    requires TraceOk(init, tr) && !tr.closed
    ensures tr.after == []
  {
  }

  lemma ClosedTrace(init: Sys, before: seq<Action>, s: Sys, s': Sys)
    requires TraceOk(init, Trace(before, false, [], s)) && s.blocked == map[] && s'.blocked == map[]
    requires Run(init, before + [CloseQueue]) == Some(s')
    ensures TraceOk(init, Trace(before, true, [], s'))
  {
    hide Run;
    assert before + [CloseQueue] + [] == before + [CloseQueue];
  }

  // What an event does to the queue.
  function ActionOf(e: Event): seq<Action> {
    match e
    case Queue(a) => [a]
    case Net(t) => if t.LoopReturns? then [CloseQueue] else []
  }

  function ActionsOf(es: seq<Event>): seq<Action> {
    if es == [] then [] else ActionsOf(es[..|es| - 1]) + ActionOf(es[|es| - 1])
  }

  lemma ActionKeepsStep(source: C.TCPSource, init: Sys, tr: Trace, a: Action)
    requires source.Valid() && TraceOk(init, tr) && InStep(source, tr) && Q.ValidState(tr.s.q) && Possible(source, tr.s, Queue(a))
    ensures var tr' := tr.Add(a, Next(tr.s, a));
            TraceOk(init, tr') && InStep(source, tr') && tr'.Actions() == tr.Actions() + [a]
  {
    C.ClosedQueueMeansAllShut(source);
    hide C.TCPSource.Valid, TraceOk, Next, Enabled;
    AddKeepsTrace(init, tr, a);
    BlockedStep(tr.s, a);
    Assoc(tr.before + [CloseQueue], tr.after, [a]);
  }

  lemma ClosingKeepsTrace(init: Sys, tr: Trace)
    requires TraceOk(init, tr) && Q.ValidState(tr.s.q) && !tr.closed && tr.s.blocked == map[]
    ensures var tr' := tr.(closed := true, s := Next(tr.s, CloseQueue));
            TraceOk(init, tr') && tr'.s.blocked == map[] && tr'.Actions() == tr.Actions() + [CloseQueue]
  {
    CloseKeepsTrace(init, tr);
    NobodyWoken(tr.s);
    NothingAfter(init, tr);
    hide TraceOk, Next;
    assert tr.before + [CloseQueue] + [] == tr.before + [CloseQueue];
  }

  // One event, keeping source and queue in step.
  method Step(source: C.TCPSource, ghost init: Sys, tr: Trace, e: Event) returns (tr': Trace)
    requires source.Valid() && TraceOk(init, tr) && InStep(source, tr) && Q.ValidState(tr.s.q) && Possible(source, tr.s, e)
    modifies source
    ensures source.Valid() && TraceOk(init, tr') && InStep(source, tr')
    ensures tr'.Actions() == tr.Actions() + ActionOf(e)
    ensures e.Net? ==> source.View() == C.After(source.maxConnections, old(source.View()), e.turn)
    ensures e.Queue? ==> unchanged(source) && tr'.s == Next(tr.s, e.action)
  {
    hide C.TCPSource.Valid, TraceOk, Next, C.After, Trace.Actions;
    match e {
      case Queue(a) =>
        ActionKeepsStep(source, init, tr, a);
        tr' := tr.Add(a, Next(tr.s, a));
      case Net(t) => tr' := Turn(source, init, tr, t);
    }
  }

  lemma OpenBefore(source: C.TCPSource, t: C.Turn)
    requires source.Valid() && source.Enabled(t)
    ensures t.LoopReturns? ==> !source.queueClosed
  {
  }

  method Turn(source: C.TCPSource, ghost init: Sys, tr: Trace, t: C.Turn) returns (tr': Trace)
    requires source.Valid() && TraceOk(init, tr) && InStep(source, tr) && Q.ValidState(tr.s.q) && Possible(source, tr.s, Net(t))
    modifies source
    ensures source.Valid() && TraceOk(init, tr') && InStep(source, tr')
    ensures tr'.Actions() == tr.Actions() + ActionOf(Net(t))
    ensures source.View() == C.After(source.maxConnections, old(source.View()), t)
  {
    hide TraceOk, Next, C.After, Trace.Actions, C.Remaining, C.CanHappen, C.TCPSource.Valid, C.TCPSource.View;
    OpenBefore(source, t);
    source.TakeTurn(t);
    tr' := tr;
    if t.LoopReturns? {
      C.ClosedQueueMeansAllShut(source);
      ClosingKeepsTrace(init, tr);
      tr' := tr.(closed := true, s := Next(tr.s, CloseQueue));
    } else {
      assert tr.Actions() + [] == tr.Actions();
    }
  }

  // Any schedule of accept loop, framers, Close, producers' pushes and writer, up to its first event that is
  // not possible, the k-th. If the queue has been closed the run was orderly, so under block with a sink that
  // does not fail every record offered by any connection reaches the sink.
  method RunTogether(cfg: Q.QueueConfig, stripAnsi: bool, maxConnections: nat, schedule: seq<Event>)
    returns (source: C.TCPSource, tr: Trace, k: nat)
    requires ValidConfig(cfg)
    ensures fresh(source) && source.Valid() && TraceOk(Init(cfg, stripAnsi), tr) && InStep(source, tr)
    ensures k <= |schedule| && tr.Actions() == ActionsOf(schedule[..k])
    ensures k < |schedule| ==> !Possible(source, tr.s, schedule[k])
    ensures source.queueClosed ==> Shutdown.Orderly(Init(cfg, stripAnsi), tr.before, tr.after)
    ensures source.queueClosed && cfg.overflow == Q.Block && tr.s.w.Done? ==>
              && Acc.RawOf(tr.s.log) == Recs(tr.s.h.accepted)
              && forall p :: Acc.By(p, tr.s.h.accepted) == Get(tr.s.h.offered, p)
  {
    source := new C.TCPSource(maxConnections);
    var init := Init(cfg, stripAnsi);
    tr := Trace([], false, [], init);
    EmptyTrace(init);
    k := 0;
    hide TraceOk, InStep, Possible, Init, Shutdown.Orderly, Trace.Actions;
    while k < |schedule| && Possible(source, tr.s, schedule[k])
      invariant k <= |schedule| && tr.Actions() == ActionsOf(schedule[..k])
      invariant fresh(source) && source.Valid() && TraceOk(init, tr) && InStep(source, tr)
      invariant Q.ValidState(tr.s.q)
    {
      assert schedule[..k + 1][..k] == schedule[..k];
      tr := Step(source, init, tr, schedule[k]);
      TraceIsSafe(cfg, stripAnsi, tr);
      k := k + 1;
    }
    Delivered(cfg, stripAnsi, source, tr);
  }

  lemma EmptyTrace(init: Sys)
    requires init.blocked == map[]
    ensures TraceOk(init, Trace([], false, [], init))
  {
  }

  lemma TraceIsSafe(cfg: Q.QueueConfig, stripAnsi: bool, tr: Trace)
    requires ValidConfig(cfg) && TraceOk(Init(cfg, stripAnsi), tr)
    ensures Q.ValidState(tr.s.q)
  {
    RunsAreSafe(cfg, stripAnsi, tr.Actions());
  }

  lemma Delivered(cfg: Q.QueueConfig, stripAnsi: bool, source: C.TCPSource, tr: Trace)
    requires ValidConfig(cfg) && TraceOk(Init(cfg, stripAnsi), tr) && InStep(source, tr)
    ensures source.queueClosed ==> Shutdown.Orderly(Init(cfg, stripAnsi), tr.before, tr.after)
    ensures source.queueClosed && cfg.overflow == Q.Block && tr.s.w.Done? ==>
              && Acc.RawOf(tr.s.log) == Recs(tr.s.h.accepted)
              && forall p :: Acc.By(p, tr.s.h.accepted) == Get(tr.s.h.offered, p)
  {
    if tr.closed && cfg.overflow == Q.Block && tr.s.w.Done? {
      Shutdown.EveryRecordIsDelivered(cfg, stripAnsi, tr.before, tr.after, tr.s, 0);
      forall p ensures Acc.By(p, tr.s.h.accepted) == Get(tr.s.h.offered, p) {
        Shutdown.EveryRecordIsDelivered(cfg, stripAnsi, tr.before, tr.after, tr.s, p);
      }
    }
  }
}
