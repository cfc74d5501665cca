/** Invariants of the queue/writer protocol about wakeups, blocking, closing and termination of runs. */
module ProtocolSafety {
  import opened LogRecords
  import opened Protocol
  import Q = QueueSpec

  // Queue bounds, the meaning of each program counter, and who may be blocked when.
  ghost predicate Structure(s: Sys) {
    && Q.ValidState(s.q)
    && (s.q.closed ==> forall p :: p in s.blocked ==> s.blocked[p].woken)
    && (s.q.cfg.overflow != Q.Block ==> s.blocked == map[])
    && (!s.h.oversize ==> forall p :: p in s.blocked ==> |s.blocked[p].item.line| <= s.q.cfg.maxBytes)
    && (s.q.drops.records == 0 ==> s.q.drops.bytes == 0)
    && ((s.w.Emit? || s.w.Summarizing? || s.w.BeforePop? || s.w.Writing?) && !s.w.open ==> s.q.closed)
    && (s.w.EmitFinal? || s.w.SummarizingFinal? || s.w.ClosingSink? || s.w.Done? ==>
          s.q.closed && s.q.contents == [])
    && (s.w.SummarizingFinal? || s.w.ClosingSink? || s.w.Done? ==> s.q.drops.records == 0)
    && (s.w.Failed? ==> s.q.closed)
    && s.sinkCloses <= 1
    && (s.sinkCloses == 1 ==> s.w.Done? || s.w.Failed?)
    && (s.w.Done? ==> s.sinkCloses == 1)
  }

  ghost predicate WakePending(s: Sys) {
    s.q.wake.token || s.q.closed
  }

  // A parked writer never misses records, nor (while every line fits maxBytes) unreported drops.
  ghost predicate NoLostWakeup(s: Sys) {
    && (s.w.Parked? && s.q.contents != [] ==> WakePending(s))
    && (!s.h.oversize && s.q.drops.records > 0 ==>
          && (s.w.Parked? ==> WakePending(s))
          && (s.w.BeforePop? || s.w.Summarizing? ==> s.q.contents != [] || WakePending(s)))
  }

  // While the queue is open, an empty queue with a sleeping producer has a woken producer too.
  ghost predicate SomeoneAwake(s: Sys) {
    !s.h.oversize && !s.q.closed && s.q.contents == [] && (exists p :: IsWaiting(s, p)) ==>
      exists p :: IsWoken(s, p)
  }

  ghost predicate Safe(s: Sys) {
    Structure(s) && NoLostWakeup(s) && SomeoneAwake(s)
  }

  // What one evaluation of Push by p does to the parts these invariants speak of.
  lemma AttemptEffect(s: Sys, p: Pid, item: Item)
    requires Q.ValidState(s.q)
    ensures var t := Attempt(s, p, item);
            var r := Q.Push(s.q, item.meta, item.line).1;
            && t.q == Q.Push(s.q, item.meta, item.line).0
            && Q.ValidState(t.q) && t.q.closed == s.q.closed && t.q.cfg == s.q.cfg
            && t.w == s.w && t.sinkCloses == s.sinkCloses && t.log == s.log && t.strip == s.strip
            && t.h.oversize == s.h.oversize
            && (r == Q.MustWait ==> t.q == s.q && !s.q.closed && s.q.cfg.overflow == Q.Block
                                    && !Q.HasCapacity(s.q, |item.line|)
                                    && t.blocked == s.blocked[p := Blocked(item, false)])
            && (r != Q.MustWait ==> t.blocked == s.blocked - {p})
            && (r == Q.Accepted ==> !s.q.closed && t.q.contents != [] && t.q.wake.token)
            && (r == Q.Refused ==> t.q.contents == s.q.contents && t.q.wake == s.q.wake
                                   && (t.q.drops == s.q.drops || t.q.drops.records > 0))
            && (r == Q.Refused && s.q.closed ==> t.q == s.q)
            && (r == Q.Refused && !s.q.closed ==>
                  s.q.cfg.overflow != Q.Block && (|item.line| <= s.q.cfg.maxBytes ==> s.q.contents != []))
            && (t.q.drops.records == 0 && s.q.drops.records == 0 ==> t.q.drops.bytes == s.q.drops.bytes)
            && (t.q.drops.records == 0 ==> s.q.drops.records == 0)
  {
    Q.PushKeepsValid(s.q, item.meta, item.line);
    var (q', r) := Q.Push(s.q, item.meta, item.line);
    if r == Q.Accepted {
      Q.AcceptedPush(s.q, item.meta, item.line);
      assert s.q.contents[..0] == [];
    } else if r == Q.Refused && !s.q.closed {
      Q.RefusedPush(s.q, item.meta, item.line);
    }
  }

  lemma AttemptKeepsSafe(s: Sys, p: Pid, item: Item)
    requires Structure(s) && NoLostWakeup(s)
    requires p in s.blocked ==> IsWoken(s, p) && s.blocked[p].item == item
    requires !s.h.oversize ==> |item.line| <= s.q.cfg.maxBytes
    requires SomeoneAwake(s)
    ensures Safe(Attempt(s, p, item))
  {
    var t := Attempt(s, p, item);
    AttemptEffect(s, p, item);
    if !t.h.oversize && !t.q.closed && t.q.contents == [] && exists x :: IsWaiting(t, x) {
      assert false; // an empty queue has room for the item: it was accepted, and the queue is not empty
    }
  }

  lemma CloseKeepsSafe(s: Sys)
    requires Safe(s)
    ensures Safe(CloseNow(s)) && CloseNow(s).q.closed
  {
  }

  // SomeoneAwake looks only at the blocked producers, the queue and the history flag.
  lemma SameBlockedSameAwake(s: Sys, t: Sys)
    requires SomeoneAwake(s) && t.blocked == s.blocked && t.h.oversize == s.h.oversize
    requires !t.q.closed && t.q.contents == [] ==> !s.q.closed && s.q.contents == []
    ensures SomeoneAwake(t)
  {
    assert forall x :: (IsWaiting(t, x) <==> IsWaiting(s, x)) && (IsWoken(t, x) <==> IsWoken(s, x));
  }

  lemma PopKeepsSafe(s: Sys, signalled: Option<Pid>)
    requires Safe(s) && Enabled(s, PopNext(signalled))
    ensures Safe(Next(s, PopNext(signalled)))
  {
    var t := Next(s, PopNext(signalled));
    Q.PopKeepsValid(s.q);
    if s.q.contents == [] {
      SameBlockedSameAwake(s, t);
    } else if signalled.Some? {
      assert IsWoken(t, signalled.value);
    } else {
      assert forall x :: !IsWaiting(t, x);
    }
  }

  lemma WriterStepKeepsSafe(s: Sys, a: Action)
    requires Safe(s) && Enabled(s, a)
    requires a.Tick? || a.Receive? || a.TakeDrops? || a.WriteSummary? || a.WriteNext? || a.CloseSink?
    ensures Safe(Next(s, a))
  {
    SameBlockedSameAwake(s, Next(s, a));
  }

  lemma NextKeepsSafe(s: Sys, a: Action)
    requires Safe(s) && Enabled(s, a)
    ensures Safe(Next(s, a))
  {
    match a
    case PushStart(p, item) =>
      var s1 := Offer(s, p, item);
      assert forall x :: (IsWaiting(s1, x) <==> IsWaiting(s, x)) && (IsWoken(s1, x) <==> IsWoken(s, x));
      AttemptKeepsSafe(s1, p, item);
    case Resume(p) => AttemptKeepsSafe(s, p, s.blocked[p].item);
    case InternalPush(rec) =>
      Q.PushInternalKeepsValid(s.q, rec);
      SameBlockedSameAwake(s, Next(s, a));
    case CloseQueue => CloseKeepsSafe(s);
    case FailClose => CloseKeepsSafe(s);
    case PopNext(signalled) => PopKeepsSafe(s, signalled);
    case _ => WriterStepKeepsSafe(s, a);
  }

  // Every state of every run is safe; in particular the queue bounds hold in every state, so no
  // action is ever held back by them.
  lemma {:induction false} RunsAreSafe(cfg: Q.QueueConfig, stripAnsi: bool, acts: seq<Action>)
    requires ValidConfig(cfg)
    ensures var r := Run(Init(cfg, stripAnsi), acts); r.Some? ==> Safe(r.value) && r.value.q.cfg == cfg
  {
    if acts != [] {
      var init := acts[..|acts| - 1];
      RunsAreSafe(cfg, stripAnsi, init);
      var mid := Run(Init(cfg, stripAnsi), init);
      var a := acts[|acts| - 1];
      if mid.Some? && Enabled(mid.value, a) {
        NextKeepsSafe(mid.value, a);
        NextKeepsConfig(mid.value, a);
      }
    }
  }

  // The steps that neither move records nor count drops nor log.
  predicate IsQuiet(a: Action) {
    a.CloseQueue? || a.Tick? || a.Receive? || a.CloseSink? || a.FailClose?
  }

  ghost predicate SinkFailed(s: Sys) {
    s.w.Failing? || s.w.Failed?
  }

  // The writer holds neither taken drops nor a popped record.
  predicate EmptyHanded(w: WriterPc) {
    !w.Summarizing? && !w.SummarizingFinal? && !w.Writing?
  }

  lemma QuietStep(s: Sys, a: Action)
    requires Q.ValidState(s.q) && Enabled(s, a) && IsQuiet(a)
    ensures var t := Next(s, a);
            && t.q == s.q.(closed := t.q.closed, wake := t.q.wake)
            && t.h == s.h && t.log == s.log && t.strip == s.strip
            && (s.q.closed ==> t.q.closed)
            && t.blocked.Keys == s.blocked.Keys
            && (forall p :: p in s.blocked ==> t.blocked[p].item == s.blocked[p].item)
            && (SinkFailed(s) ==> SinkFailed(t))
            && (if a.CloseQueue? then t.w == s.w else EmptyHanded(t.w) && (EmptyHanded(s.w) || SinkFailed(t)))
  {
  }

  lemma NextKeepsConfig(s: Sys, a: Action)
    requires Q.ValidState(s.q) && Enabled(s, a)
    ensures Next(s, a).q.cfg == s.q.cfg
    ensures s.q.closed ==> Next(s, a).q.closed
  {
    match a
    case PushStart(p, item) =>
      AttemptEffect(Offer(s, p, item), p, item);
    case Resume(p) => AttemptEffect(s, p, s.blocked[p].item);
    case _ =>
  }
}
