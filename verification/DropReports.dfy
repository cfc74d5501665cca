/** What the drop summaries in a sink's log say, over every run. */
module DropReports {
  import opened LogRecords
  import opened Protocol
  import opened ProtocolSafety
  import opened ProtocolAccounting
  import Q = QueueSpec

  // Drops that name the queue's own, lossy policy.
  ghost predicate NamesPolicy(cfg: Q.QueueConfig, d: Q.DropStats) {
    d.records > 0 && cfg.overflow != Q.Block && d.policy == Some(cfg.overflow)
  }

  ghost predicate ReportsOk(s: Sys) {
    && (s.q.drops.records > 0 ==> NamesPolicy(s.q.cfg, s.q.drops))
    && (s.w.Summarizing? || s.w.SummarizingFinal? ==> NamesPolicy(s.q.cfg, s.w.drops))
    && (forall e :: e in s.log && e.Summary? ==> NamesPolicy(s.q.cfg, e.drops))
  }

  lemma AttemptKeepsReports(s: Sys, p: Pid, item: Item)
    requires Q.ValidState(s.q) && ReportsOk(s)
    ensures ReportsOk(Attempt(s, p, item))
  {
    AttemptEffect(s, p, item);
    var r := Q.Push(s.q, item.meta, item.line).1;
    if r == Q.Accepted {
      Q.AcceptedPush(s.q, item.meta, item.line);
    } else if r == Q.Refused && !s.q.closed {
      Q.RefusedPush(s.q, item.meta, item.line);
    }
  }

  lemma WriterKeepsReports(s: Sys, a: Action)
    requires Q.ValidState(s.q) && ReportsOk(s) && Enabled(s, a) && !a.PushStart? && !a.Resume?
    ensures ReportsOk(Next(s, a))
  {
  }

  lemma NextKeepsReports(s: Sys, a: Action)
    requires Q.ValidState(s.q) && ReportsOk(s) && Enabled(s, a)
    ensures ReportsOk(Next(s, a))
  {
    match a
    case PushStart(p, item) =>
      AttemptKeepsReports(Offer(s, p, item), p, item);
    case Resume(p) => AttemptKeepsReports(s, p, s.blocked[p].item);
    case _ => WriterKeepsReports(s, a);
  }

  lemma {:induction false} RunKeepsReports(cfg: Q.QueueConfig, stripAnsi: bool, acts: seq<Action>)
    requires ValidConfig(cfg) && Run(Init(cfg, stripAnsi), acts).Some?
    ensures ReportsOk(Run(Init(cfg, stripAnsi), acts).value)
  {
    if acts != [] {
      RunKeepsReports(cfg, stripAnsi, acts[..|acts| - 1]);
      NextKeepsReports(Run(Init(cfg, stripAnsi), acts[..|acts| - 1]).value, acts[|acts| - 1]);
    }
  }

  // Every summary in the log is an internal "dropped" record that counts at least one record and names
  // the policy that lost it; the block policy never produces one, and the reason without a policy is
  // never used.
  lemma SummariesNameTheirPolicy(cfg: Q.QueueConfig, stripAnsi: bool, acts: seq<Action>, s: Sys, e: Entry)
    requires ValidConfig(cfg) && Run(Init(cfg, stripAnsi), acts) == Some(s)
    requires e in s.log && e.Summary?
    ensures cfg.overflow != Q.Block
    ensures e.written.end == Internal && e.written.internalEvent == "dropped" && e.written.line == []
    ensures e.written.droppedRecords == e.drops.records > 0 && e.written.droppedBytes == e.drops.bytes
    ensures e.written.reason == if cfg.overflow == Q.DropOldest then "queue_full_drop_oldest" else "queue_full_drop_newest"
  {
    RunKeepsReports(cfg, stripAnsi, acts);
    RunsAreSound(cfg, stripAnsi, acts, s);
    assert IsSummaryOf(e);
  }

  // The drops have been taken since the last Pop.
  ghost predicate HasTaken(acts: seq<Action>) {
    exists j :: 0 <= j < |acts| && acts[j].TakeDrops? && NoPopAfter(acts, j)
  }

  ghost predicate NoPopAfter(acts: seq<Action>, j: nat) {
    forall k :: j < k < |acts| ==> !acts[k].PopNext?
  }

  lemma HasTakenSnoc(acts: seq<Action>, a: Action)
    ensures HasTaken(acts) && !a.PopNext? ==> HasTaken(acts + [a])
    ensures a.TakeDrops? ==> HasTaken(acts + [a])
  {
    if HasTaken(acts) && !a.PopNext? {
      var j :| 0 <= j < |acts| && acts[j].TakeDrops? && NoPopAfter(acts, j);
      assert (acts + [a])[j] == acts[j] && NoPopAfter(acts + [a], j);
    }
    if a.TakeDrops? {
      assert (acts + [a])[|acts|] == a && NoPopAfter(acts + [a], |acts|);
    }
  }

  // So a long flood is reported while the queue is drained, not only at its end: in every run the writer takes
  // the drops before each Pop, after the Pop before it, and once more before it closes the sink.
  lemma {:induction false} DropsAreTakenBetweenPops(s0: Sys, acts: seq<Action>)
    requires s0.w.Parked? && Run(s0, acts).Some?
    ensures var w := Run(s0, acts).value.w;
            w.BeforePop? || w.Summarizing? || w.SummarizingFinal? || w.ClosingSink? || w.Done? ==> HasTaken(acts)
  {
    if acts != [] {
      var init, a := acts[..|acts| - 1], acts[|acts| - 1];
      DropsAreTakenBetweenPops(s0, init);
      HasTakenSnoc(init, a);
      assert acts == init + [a];
      WriterMoves(Run(s0, init).value, a);
      hide Next, HasTaken, Enabled;
    }
  }

  // Only taking the drops leads to where a Pop or the closing of the sink is next.
  lemma WriterMoves(s: Sys, a: Action)
    requires Q.ValidState(s.q) && Enabled(s, a)
    ensures var w, w' := s.w, Next(s, a).w;
            w'.BeforePop? || w'.Summarizing? || w'.SummarizingFinal? || w'.ClosingSink? || w'.Done? ==>
              a.TakeDrops? || (!a.PopNext? && (w.BeforePop? || w.Summarizing? || w.SummarizingFinal? || w.ClosingSink? || w.Done?))
    ensures a.PopNext? ==> s.w.BeforePop?
  {
  }
}
