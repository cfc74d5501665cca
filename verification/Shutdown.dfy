/**
 Orderly shutdown: a source closes its queue only when none of its framers can push any more (the end of
 RunFramer, and of the accept loop in source_network.go). Then no record is refused, so what
 Delivery says of records that were accepted holds of all that were offered.
 */
module Shutdown {
  import opened LogRecords
  import opened Protocol
  import opened ProtocolSafety
  import opened ProtocolHistory
  import opened ProtocolAccounting
  import Delivery
  import Q = QueueSpec

  // The writer's sink does not fail and nobody closes the queue.
  ghost predicate KeepsOpen(a: Action) {
    !a.CloseQueue? && !a.FailClose?
  }

  // The run first..., then one Close while nobody is inside Push, then no new Push.
  ghost predicate Orderly(init: Sys, before: seq<Action>, after: seq<Action>) {
    && (forall a :: a in before ==> KeepsOpen(a))
    && (forall a :: a in after ==> !a.PushStart?)
    && Run(init, before).Some? && Run(init, before).value.blocked == map[]
  }

  lemma {:induction false} RunConcat(s: Sys, a: seq<Action>, b: seq<Action>)
    requires Run(s, a + b).Some?
    ensures Run(s, a).Some? && Run(Run(s, a).value, b) == Run(s, a + b)
  {
    if b == [] {
      assert a + b == a;
    } else {
      hide Next, Enabled;
      assert (a + b)[..|a + b| - 1] == a + b[..|b| - 1] && (a + b)[|a + b| - 1] == b[|b| - 1];
      RunConcat(s, a, b[..|b| - 1]);
    }
  }

  lemma {:induction false} OpenQueueRefusesNobody(s: Sys, acts: seq<Action>)
    requires Run(s, acts).Some? && forall a :: a in acts ==> KeepsOpen(a)
    requires !s.q.closed && s.h.refused == map[]
    ensures !Run(s, acts).value.q.closed && Run(s, acts).value.h.refused == map[]
  {
    if acts != [] {
      var n := |acts| - 1;
      assert acts[n] in acts && forall a :: a in acts[..n] ==> a in acts;
      OpenQueueRefusesNobody(s, acts[..n]);
      OpenStep(Run(s, acts[..n]).value, acts[n]);
    }
  }

  lemma OpenStep(s: Sys, a: Action)
    requires Q.ValidState(s.q) && Enabled(s, a) && KeepsOpen(a) && !s.q.closed && s.h.refused == map[]
    ensures !Next(s, a).q.closed && Next(s, a).h.refused == map[]
  {
    match a
    case PushStart(p, item) => Q.PushKeepsValid(s.q, item.meta, item.line);
    case Resume(p) => Q.PushKeepsValid(s.q, s.blocked[p].item.meta, s.blocked[p].item.line);
    case _ =>
  }

  lemma {:induction false} NobodyPushesNobodyRefused(s: Sys, acts: seq<Action>)
    requires Run(s, acts).Some? && forall a :: a in acts ==> !a.PushStart?
    requires s.blocked == map[] && s.h.refused == map[]
    ensures Run(s, acts).value.blocked == map[] && Run(s, acts).value.h.refused == map[]
    ensures Run(s, acts).value.h.offered == s.h.offered
  {
    if acts != [] {
      var n := |acts| - 1;
      assert acts[n] in acts && forall a :: a in acts[..n] ==> a in acts;
      NobodyPushesNobodyRefused(s, acts[..n]);
      QuietQueueStep(Run(s, acts[..n]).value, acts[n]);
      hide Next, Enabled;
    }
  }

  lemma QuietQueueStep(s: Sys, a: Action)
    requires Q.ValidState(s.q) && Enabled(s, a) && !a.PushStart? && s.blocked == map[]
    ensures var t := Next(s, a); t.blocked == map[] && t.h.refused == s.h.refused && t.h.offered == s.h.offered
  {
  }

  lemma OrderlyShutdownRefusesNobody(cfg: Q.QueueConfig, stripAnsi: bool, before: seq<Action>, after: seq<Action>, s: Sys)
    requires ValidConfig(cfg) && Orderly(Init(cfg, stripAnsi), before, after)
    requires Run(Init(cfg, stripAnsi), before + [CloseQueue] + after) == Some(s)
    ensures s.h.refused == map[] && s.blocked == map[]
  {
    var init := Init(cfg, stripAnsi);
    RunConcat(init, before + [CloseQueue], after);
    RunConcat(init, before, [CloseQueue]);
    OpenQueueRefusesNobody(init, before);
    var mid := Run(init, before).value;
    assert [CloseQueue][..0] == [] && Run(mid, []) == Some(mid);
    var closed := Run(mid, [CloseQueue]).value;
    NobodyPushesNobodyRefused(closed, after);
  }

  // Block policy, orderly shutdown, sink that does not fail: every connection's records are all accepted,
  // in its own order, and all accepted records are in the log.
  lemma EveryRecordIsDelivered(cfg: Q.QueueConfig, stripAnsi: bool, before: seq<Action>, after: seq<Action>, s: Sys, p: Pid)
    requires ValidConfig(cfg) && cfg.overflow == Q.Block && Orderly(Init(cfg, stripAnsi), before, after)
    requires Run(Init(cfg, stripAnsi), before + [CloseQueue] + after) == Some(s) && s.w.Done?
    ensures By(p, s.h.accepted) == Get(s.h.offered, p)
    ensures RawOf(s.log) == Recs(s.h.accepted)
  {
    var acts := before + [CloseQueue] + after;
    OrderlyShutdownRefusesNobody(cfg, stripAnsi, before, after, s);
    Delivery.ConnectionProjection(cfg, stripAnsi, acts, s, p);
    Delivery.BlockIsLossless(cfg, stripAnsi, acts, s);
  }
}
