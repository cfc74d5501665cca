/** Main results on wakeups, blocking and progress, for every run of the protocol. */
module ProtocolProgress {
  import opened LogRecords
  import opened Protocol
  import opened ProtocolSafety
  import Q = QueueSpec

  // Steps the running system takes by itself: producers already inside Push, and the writer. New
  // pushes, an outside Close and the flush tick are the environment's.
  predicate IsInternal(a: Action) {
    !(a.PushStart? || a.InternalPush? || a.CloseQueue? || a.Tick?)
  }

  ghost predicate CanStep(s: Sys) {
    exists a :: IsInternal(a) && Enabled(s, a)
  }

  ghost predicate WriterCanStep(s: Sys) {
    exists a :: IsInternal(a) && !a.Resume? && Enabled(s, a)
  }

  // Whenever the writer is parked and there is something to do, its next receive does not block.
  lemma LostWakeupFreedom(cfg: Q.QueueConfig, stripAnsi: bool, acts: seq<Action>, s: Sys)
    requires ValidConfig(cfg) && Run(Init(cfg, stripAnsi), acts) == Some(s)
    ensures s.w.Parked? && s.q.contents != [] ==> Enabled(s, Receive)
    ensures s.w.Parked? && s.q.drops.records > 0 && !s.h.oversize ==> Enabled(s, Receive)
    ensures s.q.wake.closed == s.q.closed
  {
    RunsAreSafe(cfg, stripAnsi, acts);
  }

  // Every program counter but the select and the two ends has its own step.
  lemma BusyWriterCanStep(s: Sys)
    requires Structure(s) && !s.w.Done? && !s.w.Failed?
    requires s.w.Parked? ==> s.q.wake.token || s.q.wake.closed
    ensures WriterCanStep(s)
  {
    match s.w
    case Parked => assert Enabled(s, Receive);
    case Emit(_) => assert Enabled(s, TakeDrops);
    case EmitFinal => assert Enabled(s, TakeDrops);
    case Summarizing(_, _) => assert Enabled(s, WriteSummary(true, 0));
    case SummarizingFinal(_) => assert Enabled(s, WriteSummary(true, 0));
    case BeforePop(_) =>
      if s.q.contents == [] || forall p :: p in s.blocked ==> s.blocked[p].woken {
        assert Enabled(s, PopNext(None));
      } else {
        var p :| p in s.blocked && !s.blocked[p].woken;
        assert Enabled(s, PopNext(Some(p)));
      }
    case Writing(_, _) => assert Enabled(s, WriteNext(true));
    case ClosingSink => assert Enabled(s, CloseSink(true));
    case Failing => assert Enabled(s, FailClose);
  }

  ghost predicate WouldSucceed(s: Sys, p: Pid)
    requires Q.ValidState(s.q)
  {
    IsWoken(s, p) && Q.Push(s.q, s.blocked[p].item.meta, s.blocked[p].item.line).1 == Q.Accepted
  }

  // Blocking producers never deadlock although Pop signals only one of them: with the queue empty
  // some producer is awake and its push succeeds; otherwise the writer has a step.
  lemma NoDeadlock(cfg: Q.QueueConfig, stripAnsi: bool, acts: seq<Action>, s: Sys, p: Pid)
    requires ValidConfig(cfg) && Run(Init(cfg, stripAnsi), acts) == Some(s)
    requires IsWaiting(s, p) && !s.h.oversize
    ensures Q.ValidState(s.q) && !s.q.closed
    ensures s.q.contents == [] ==> exists x :: WouldSucceed(s, x)
    ensures s.q.contents != [] ==> WriterCanStep(s)
  {
    RunsAreSafe(cfg, stripAnsi, acts);
    if s.q.contents == [] {
      var x :| IsWoken(s, x);
      assert Q.HasCapacity(s.q, |s.blocked[x].item.line|) && WouldSucceed(s, x);
    } else {
      BusyWriterCanStep(s);
    }
  }

  // Close releases every blocked Push: whatever happens next, each one returns false at its turn.
  lemma CloseReleasesBlocked(s: Sys, p: Pid)
    requires Safe(s) && p in s.blocked
    ensures var c := CloseNow(s);
            && Q.ValidState(c.q) && Enabled(c, Resume(p))
            && var t := Next(c, Resume(p));
               && p !in t.blocked && t.q == c.q
               && Get(t.h.refused, p) == Get(c.h.refused, p) + [s.blocked[p].item]
  {
    CloseKeepsSafe(s);
  }

  /* ---- Every blocked push returns ---- */

  function Woken(blocked: map<Pid, Blocked>): set<Pid> {
    set p | p in blocked && blocked[p].woken
  }

  function WriterRank(w: WriterPc): nat {
    match w
    case Writing(open, _) => if open then 12 else 7
    case Emit(open) => if open then 11 else 6
    case Summarizing(open, _) => if open then 10 else 5
    case BeforePop(open) => if open then 9 else 4
    case Parked => 8
    case EmitFinal => 3
    case SummarizingFinal(_) => 2
    case ClosingSink => 1
    case Failing => 1
    case Done => 0
    case Failed => 0
  }

  // An upper bound on the internal steps still to come.
  function Rank(s: Sys): nat {
    9 * |s.blocked| + |Woken(s.blocked)| + (if s.q.closed then 0 else |s.blocked|)
    + 5 * |s.q.contents| + (if s.q.wake.token then 4 else 0) + WriterRank(s.w)
  }

  lemma WokenIsSubset(blocked: map<Pid, Blocked>)
    ensures |Woken(blocked)| <= |blocked|
  {
    SubsetSize(Woken(blocked), blocked.Keys);
  }

  lemma ResumeDecreases(s: Sys, p: Pid)
    requires Safe(s) && IsWoken(s, p)
    ensures Rank(Next(s, Resume(p))) < Rank(s)
  {
    var item := s.blocked[p].item;
    var t := Next(s, Resume(p));
    AttemptEffect(s, p, item);
    if Q.Push(s.q, item.meta, item.line).1 == Q.MustWait {
      assert t.blocked.Keys == s.blocked.Keys;
      assert |t.blocked| == |s.blocked| by { assert |t.blocked.Keys| == |s.blocked.Keys|; }
      assert Woken(t.blocked) == Woken(s.blocked) - {p};
    } else {
      assert t.blocked.Keys == s.blocked.Keys - {p};
      assert |t.blocked| == |s.blocked| - 1 by { assert |t.blocked.Keys| == |s.blocked.Keys| - 1; }
      assert Woken(t.blocked) == Woken(s.blocked) - {p};
      if Q.Push(s.q, item.meta, item.line).1 == Q.Accepted {
        Q.AcceptedPush(s.q, item.meta, item.line);
      }
    }
  }

  lemma WakeOne(blocked: map<Pid, Blocked>, p: Pid)
    requires p in blocked && !blocked[p].woken
    ensures var after := blocked[p := blocked[p].(woken := true)];
            |after| == |blocked| && |Woken(after)| == |Woken(blocked)| + 1
  {
    var after := blocked[p := blocked[p].(woken := true)];
    assert after.Keys == blocked.Keys;
    assert |after.Keys| == |blocked.Keys|;
    assert Woken(after) == Woken(blocked) + {p};
  }

  // Pop wakes exactly one sleeping producer if there is one, and changes nobody else.
  lemma PopWakesOne(s: Sys, signalled: Option<Pid>)
    requires Q.ValidState(s.q) && Enabled(s, PopNext(signalled)) && s.q.contents != []
    ensures var t := Next(s, PopNext(signalled));
            && t.blocked.Keys == s.blocked.Keys
            && |Woken(t.blocked)| == |Woken(s.blocked)| + (if exists p :: IsWaiting(s, p) then 1 else 0)
            && forall p :: p in s.blocked && signalled != Some(p) ==> t.blocked[p] == s.blocked[p]
  {
    if signalled.Some? {
      assert IsWaiting(s, signalled.value);
      WakeOne(s.blocked, signalled.value);
    }
  }

  lemma PopDecreases(s: Sys, signalled: Option<Pid>)
    requires Safe(s) && Enabled(s, PopNext(signalled))
    ensures Rank(Next(s, PopNext(signalled))) < Rank(s)
  {
    if s.q.contents != [] && signalled.Some? {
      WakeOne(s.blocked, signalled.value);
    }
    hide Woken;
  }

  lemma FailCloseDecreases(s: Sys)
    requires Safe(s) && s.w.Failing?
    ensures Rank(Next(s, FailClose)) < Rank(s)
  {
    var t := Next(s, FailClose);
    if !s.q.closed {
      assert t.blocked.Keys == s.blocked.Keys;
      assert |t.blocked| == |s.blocked| by { assert |t.blocked.Keys| == |s.blocked.Keys|; }
      WokenIsSubset(t.blocked);
    }
  }

  lemma InternalStepDecreases(s: Sys, a: Action)
    requires Safe(s) && Enabled(s, a) && IsInternal(a)
    ensures Rank(Next(s, a)) < Rank(s)
  {
    match a
    case Resume(p) => ResumeDecreases(s, p);
    case PopNext(signalled) => PopDecreases(s, signalled);
    case FailClose => FailCloseDecreases(s);
    case _ =>
  }

  // However the scheduler chooses, the system comes to rest after at most Rank(s) internal steps.
  lemma {:induction false} ComesToRest(s: Sys, acts: seq<Action>)
    requires Safe(s) && Run(s, acts).Some? && forall a :: a in acts ==> IsInternal(a)
    ensures Safe(Run(s, acts).value)
    ensures Run(s, acts).value.h.oversize == s.h.oversize
    ensures |acts| + Rank(Run(s, acts).value) <= Rank(s)
  {
    if acts != [] {
      var n := |acts| - 1;
      assert forall a :: a in acts[..n] ==> a in acts;
      ComesToRest(s, acts[..n]);
      var mid := Run(s, acts[..n]).value;
      var a := acts[n];
      assert a in acts;
      hide Safe, Enabled, Next, Rank, IsInternal;
      NextKeepsSafe(mid, a);
      InternalStepDecreases(mid, a);
      InternalOffersNothing(mid, a);
    }
  }

  lemma InternalOffersNothing(s: Sys, a: Action)
    requires Safe(s) && Enabled(s, a) && IsInternal(a)
    ensures Next(s, a).h.oversize == s.h.oversize
  {
    if a.Resume? {
      AttemptEffect(s, a.p, s.blocked[a.p].item);
    }
  }

  // At rest nobody is blocked, and unless a sink error ended the writer, nothing is left in the queue
  // and every drop has been reported.
  lemma AtRestNobodyIsBlocked(s: Sys)
    requires Safe(s) && !s.h.oversize && !CanStep(s)
    ensures s.blocked == map[]
    ensures !s.w.Failed? ==> s.q.contents == [] && s.q.drops.records == 0
    ensures s.q.closed ==> s.w.Done? || s.w.Failed?
  {
    assert forall a :: IsInternal(a) && !a.Resume? && Enabled(s, a) ==> CanStep(s);
    if !(s.w.Done? || s.w.Failed? || (s.w.Parked? && !s.q.wake.token && !s.q.wake.closed)) {
      BusyWriterCanStep(s);
    }
    if p :| p in s.blocked {
      if IsWoken(s, p) {
        assert Enabled(s, Resume(p));
      } else {
        assert IsWaiting(s, p) && !s.q.closed;
        assert s.w.Parked?;
        assert s.q.contents == [];
        var x :| IsWoken(s, x);
        assert Enabled(s, Resume(x));
      }
    }
  }

  lemma RestAfterRun(s: Sys, more: seq<Action>, t: Sys)
    requires Safe(s) && !s.h.oversize
    requires Run(s, more) == Some(t) && forall a :: a in more ==> IsInternal(a)
    ensures |more| <= Rank(s)
    ensures !CanStep(t) ==> t.blocked == map[]
    ensures !CanStep(t) && s.q.closed ==> t.w.Done? || t.w.Failed?
  {
    ComesToRest(s, more);
    if !CanStep(t) {
      AtRestNobodyIsBlocked(t);
      if s.q.closed {
        RunKeepsClosed(s, more);
      }
    }
  }

  // The two together: from any state of any run in which all lines fit, every way of running on
  // without new input has boundedly many steps, and at its end every Push has returned.
  lemma EveryPushReturns(cfg: Q.QueueConfig, stripAnsi: bool, acts: seq<Action>, s: Sys, more: seq<Action>, t: Sys)
    requires ValidConfig(cfg) && Run(Init(cfg, stripAnsi), acts) == Some(s) && !s.h.oversize
    requires Run(s, more) == Some(t) && forall a :: a in more ==> IsInternal(a)
    ensures |more| <= Rank(s)
    ensures !CanStep(t) ==> t.blocked == map[]
    ensures !CanStep(t) && s.q.closed ==> t.w.Done? || t.w.Failed?
  {
    RunsAreSafe(cfg, stripAnsi, acts);
    RestAfterRun(s, more, t);
  }

  lemma {:induction false} RunKeepsClosed(s: Sys, acts: seq<Action>)
    requires Run(s, acts).Some? && s.q.closed
    ensures Run(s, acts).value.q.closed
  {
    if acts != [] {
      RunKeepsClosed(s, acts[..|acts| - 1]);
      NextKeepsConfig(Run(s, acts[..|acts| - 1]).value, acts[|acts| - 1]);
    }
  }

  /* ---- Lines over the byte cap ---- */

  // The condition the results above carry is about what was offered, nothing else.
  ghost predicate OversizeWasOffered(s: Sys) {
    s.h.oversize ==>
      exists p, i :: 0 <= i < |Get(s.h.offered, p)| && |Get(s.h.offered, p)[i].line| > s.q.cfg.maxBytes
  }

  lemma NextKeepsOversize(s: Sys, a: Action)
    requires Q.ValidState(s.q) && Enabled(s, a) && OversizeWasOffered(s)
    ensures OversizeWasOffered(Next(s, a))
  {
    var t := Next(s, a);
    NextKeepsConfig(s, a);
    if a.PushStart? {
      var before := Get(s.h.offered, a.p);
      AttemptKeepsOffers(Offer(s, a.p, a.item), a.p, a.item);
      if |a.item.line| > s.q.cfg.maxBytes {
        assert Get(t.h.offered, a.p)[|before|] == a.item;
      } else if t.h.oversize {
        var p, i :| 0 <= i < |Get(s.h.offered, p)| && |Get(s.h.offered, p)[i].line| > s.q.cfg.maxBytes;
        assert Get(t.h.offered, p)[i] == Get(s.h.offered, p)[i];
      }
    } else {
      if a.Resume? {
        AttemptKeepsOffers(s, a.p, s.blocked[a.p].item);
      }
      assert t.h.offered == s.h.offered && t.h.oversize == s.h.oversize;
    }
  }

  lemma AttemptKeepsOffers(s: Sys, p: Pid, item: Item)
    requires Q.ValidState(s.q)
    ensures Attempt(s, p, item).h.offered == s.h.offered && Attempt(s, p, item).h.oversize == s.h.oversize
  {
  }

  lemma {:induction false} OnlyOffersAreOversize(cfg: Q.QueueConfig, stripAnsi: bool, acts: seq<Action>)
    requires ValidConfig(cfg) && Run(Init(cfg, stripAnsi), acts).Some?
    ensures OversizeWasOffered(Run(Init(cfg, stripAnsi), acts).value)
  {
    if acts != [] {
      OnlyOffersAreOversize(cfg, stripAnsi, acts[..|acts| - 1]);
      NextKeepsOversize(Run(Init(cfg, stripAnsi), acts[..|acts| - 1]).value, acts[|acts| - 1]);
    }
  }

  // The claims above need lines within maxBytes. One oversized push shows exactly that: a lossy queue
  // counts the drop without waking the writer if and only if the line exceeds the cap.
  lemma OversizeDropIsSilent(cfg: Q.QueueConfig, item: Item)
    requires ValidConfig(cfg) && cfg.overflow != Q.Block
    ensures var r := Run(Init(cfg, false), [PushStart(0, item)]);
            r.Some? && ((r.value.w.Parked? && r.value.q.drops.records > 0 && !WakePending(r.value))
                        <==> |item.line| > cfg.maxBytes)
  {
    var s0 := Init(cfg, false);
    assert [PushStart(0, item)][..0] == [] && Run(s0, []) == Some(s0);
    assert Q.HasCapacity(s0.q, |item.line|) <==> |item.line| <= cfg.maxBytes;
  }

  // Under the block policy such a push waits with nothing left that could wake it, and only such a one.
  lemma OversizePushHangs(cfg: Q.QueueConfig, item: Item)
    requires ValidConfig(cfg) && cfg.overflow == Q.Block
    ensures var r := Run(Init(cfg, false), [PushStart(0, item)]);
            r.Some? && ((IsWaiting(r.value, 0) && !CanStep(r.value)) <==> |item.line| > cfg.maxBytes)
  {
    var s0 := Init(cfg, false);
    assert [PushStart(0, item)][..0] == [] && Run(s0, []) == Some(s0);
    assert Q.HasCapacity(s0.q, |item.line|) <==> |item.line| <= cfg.maxBytes;
  }
}
