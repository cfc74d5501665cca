/** Invariants that relate the queue and the sink to everything that happened before. */
module ProtocolHistory {
  import opened LogRecords
  import opened Protocol
  import opened ProtocolSafety
  import Q = QueueSpec

  /* ---- The queue against the list of accepted records ---- */

  function Oldest(s: Sys): int {
    |s.h.accepted| - |s.q.contents|
  }

  // Sequence numbers are positions in the list of accepted records, and the queue holds the end of it.
  ghost predicate Numbered(all: seq<Record>, lo: int, contents: seq<Record>, nextSeq: nat) {
    && 0 <= lo <= |all|
    && nextSeq == |all|
    && (forall i :: 0 <= i < |all| ==> all[i].seqNo == i)
    && contents == all[lo..]
  }

  // The contents are the longest suffix of the accepted, not yet passed records within both caps.
  ghost predicate Greedy(cfg: Q.QueueConfig, all: seq<Record>, lo: int, passed: int) {
    && 0 <= passed <= lo <= |all|
    && Q.LongestFittingSuffix(cfg, all, passed, lo)
    && (cfg.overflow != Q.DropOldest ==> passed == lo)
  }

  ghost predicate Increasing(rs: seq<Record>) {
    forall i, j :: 0 <= i < j < |rs| ==> rs[i].seqNo < rs[j].seqNo
  }

  // What left the queue was popped or evicted, each record once; popped records come in order.
  ghost predicate Departed(cfg: Q.QueueConfig, all: seq<Record>, lo: int, passed: int,
                           popped: seq<Record>, evicted: seq<Record>)
  {
    && 0 <= lo <= |all|
    && multiset(popped) + multiset(evicted) == multiset(all[..lo])
    && Increasing(popped)
    && (forall r :: r in popped ==> r.seqNo < passed)
    && (cfg.overflow != Q.DropOldest ==> evicted == [] && popped == all[..lo])
  }

  // The queue's configuration and contents beside the history they are compared with.
  datatype View = View(
    cfg: Q.QueueConfig, all: seq<Record>, contents: seq<Record>, nextSeq: nat,
    passed: int, popped: seq<Record>, evicted: seq<Record>)
  {
    function Lo(): int { |all| - |contents| }

    ghost predicate NumberedOk() { Numbered(all, Lo(), contents, nextSeq) }
    ghost predicate GreedyOk() { Greedy(cfg, all, Lo(), passed) }
    ghost predicate DepartedOk() { Departed(cfg, all, Lo(), passed, popped, evicted) }
    ghost predicate Ok() { NumberedOk() && GreedyOk() && DepartedOk() }

    // After dropping the k oldest records and appending rec.
    function Admit(k: nat, rec: Record): View
      requires k <= |contents|
    {
      this.(all := all + [rec], contents := contents[k..] + [rec], nextSeq := nextSeq + 1,
            evicted := evicted + contents[..k])
    }
  }

  function ViewOf(s: Sys): View {
    View(s.q.cfg, Recs(s.h.accepted), s.q.contents, s.q.nextSeq, s.h.passed, s.h.popped, s.h.evicted)
  }

  ghost predicate QueueHistory(s: Sys) {
    ViewOf(s).Ok()
  }

  lemma RecsSnoc(ts: seq<Tagged>, t: Tagged)
    ensures Recs(ts + [t]) == Recs(ts) + [t.rec]
  {
  }

  // Appending a record never makes a suffix fit that did not fit before.
  lemma UnfitStaysUnfit(cfg: Q.QueueConfig, rs: seq<Record>, rec: Record)
    requires !Q.Fits(cfg, rs)
    ensures !Q.Fits(cfg, rs + [rec])
  {
    BytesSnoc(rs, rec);
  }

  lemma AdmitKeepsNumbered(v: View, k: nat, rec: Record)
    requires v.NumberedOk() && k <= |v.contents| && rec.seqNo == v.nextSeq
    ensures v.Admit(k, rec).NumberedOk()
  {
    assert (v.all + [rec])[v.Lo() + k..] == v.all[v.Lo()..][k..] + [rec];
  }

  // A suffix of the extended list is the suffix of the list, extended.
  lemma SuffixSnoc(all: seq<Record>, lo: nat, contents: seq<Record>, j: nat, rec: Record)
    requires lo <= |all| && contents == all[lo..] && j <= |contents|
    ensures (all + [rec])[lo + j..] == contents[j..] + [rec]
  {
  }

  lemma AdmitKeepsGreedy(v: View, k: nat, rec: Record)
    requires 0 <= v.Lo() && v.contents == v.all[v.Lo()..] && v.GreedyOk() && k <= |v.contents|
    requires Q.Fits(v.cfg, v.contents[k..] + [rec])
    requires k > 0 ==> v.cfg.overflow == Q.DropOldest && !Q.Fits(v.cfg, v.contents[k - 1..] + [rec])
    ensures v.Admit(k, rec).GreedyOk()
  {
    var w := v.Admit(k, rec);
    SuffixSnoc(v.all, v.Lo(), v.contents, k, rec);
    if k > 0 {
      SuffixSnoc(v.all, v.Lo(), v.contents, k - 1, rec);
    } else if v.Lo() > v.passed {
      var before := v.all[v.Lo() - 1..];
      UnfitStaysUnfit(v.cfg, before, rec);
      SuffixSnoc(v.all, v.Lo() - 1, before, 0, rec);
      assert before[0..] == before;
    }
  }

  // Moving a stretch x from the queue to the evicted keeps the balance.
  lemma MoveToEvicted(popped: seq<Record>, evicted: seq<Record>, gone: seq<Record>, x: seq<Record>)
    requires multiset(popped) + multiset(evicted) == multiset(gone)
    ensures multiset(popped) + multiset(evicted + x) == multiset(gone + x)
  {
    assert multiset(gone + x) == multiset(gone) + multiset(x);
    assert multiset(evicted + x) == multiset(evicted) + multiset(x);
  }

  lemma AdmitKeepsDeparted(v: View, k: nat, rec: Record)
    requires 0 <= v.Lo() && v.contents == v.all[v.Lo()..] && v.DepartedOk() && k <= |v.contents|
    requires k > 0 ==> v.cfg.overflow == Q.DropOldest
    ensures v.Admit(k, rec).DepartedOk()
  {
    var w := v.Admit(k, rec);
    var gone, x := v.all[..v.Lo()], v.contents[..k];
    assert w.all[..w.Lo()] == gone + x;
    MoveToEvicted(v.popped, v.evicted, gone, x);
    if k == 0 {
      assert gone + x == gone && v.evicted + x == v.evicted;
    }
  }

  // Admitting a record after dropping k from the front.
  lemma AdmitKeepsOk(v: View, k: nat, rec: Record)
    requires v.Ok() && k <= |v.contents| && rec.seqNo == v.nextSeq
    requires Q.Fits(v.cfg, v.contents[k..] + [rec])
    requires k > 0 ==> v.cfg.overflow == Q.DropOldest && !Q.Fits(v.cfg, v.contents[k - 1..] + [rec])
    ensures v.Admit(k, rec).Ok()
  {
    AdmitKeepsNumbered(v, k, rec);
    AdmitKeepsGreedy(v, k, rec);
    AdmitKeepsDeparted(v, k, rec);
  }

  lemma ViewAdmits(s: Sys, t: Sys, k: nat, tag: Tagged)
    requires k <= |s.q.contents| && t.q.contents == s.q.contents[k..] + [tag.rec]
    requires t.q.cfg == s.q.cfg && t.q.nextSeq == s.q.nextSeq + 1
    requires t.h.accepted == s.h.accepted + [tag] && t.h.passed == s.h.passed && t.h.popped == s.h.popped
    requires t.h.evicted == s.h.evicted + s.q.contents[..k]
    ensures ViewOf(t) == ViewOf(s).Admit(k, tag.rec)
  {
    RecsSnoc(s.h.accepted, tag);
  }

  lemma PopKeepsDeparted(cfg: Q.QueueConfig, all: seq<Record>, lo: int, passed: int,
                         popped: seq<Record>, evicted: seq<Record>)
    requires Departed(cfg, all, lo, passed, popped, evicted) && lo < |all|
    requires all[lo].seqNo == lo && passed <= lo
    ensures Departed(cfg, all, lo + 1, lo + 1, popped + [all[lo]], evicted)
  {
    assert all[..lo + 1] == all[..lo] + [all[lo]];
    assert forall i :: 0 <= i < |popped| ==> popped[i] in popped;
  }

  lemma SuffixesKeepFitting(cfg: Q.QueueConfig, rs: seq<Record>)
    requires Q.Fits(cfg, rs) && rs != []
    ensures Q.Fits(cfg, rs[1..])
  {
    Q.BytesOfSuffix(rs, 1);
  }

  lemma PopKeepsOk(v: View)
    requires v.Ok() && v.contents != []
    ensures var lo := v.Lo();
            v.(contents := v.contents[1..], popped := v.popped + [v.contents[0]], passed := lo + 1).Ok()
  {
    var all, lo := v.all, v.Lo();
    assert v.contents[0] == all[lo] && v.contents[1..] == all[lo + 1..];
    SuffixesKeepFitting(v.cfg, v.contents);
    PopKeepsDeparted(v.cfg, all, lo, v.passed, v.popped, v.evicted);
  }

  lemma PopKeepsQueueHistory(s: Sys, signalled: Option<Pid>)
    requires Q.ValidState(s.q) && QueueHistory(s) && Enabled(s, PopNext(signalled))
    ensures QueueHistory(Next(s, PopNext(signalled)))
  {
    if s.q.contents == [] {
      SameQueueHistory(s, Next(s, PopNext(signalled)));
    } else {
      PopKeepsOk(ViewOf(s));
    }
  }

  lemma AcceptedKeepsQueueHistory(s: Sys, p: Pid, item: Item)
    requires Q.ValidState(s.q) && QueueHistory(s) && Q.Push(s.q, item.meta, item.line).1 == Q.Accepted
    ensures QueueHistory(Attempt(s, p, item))
  {
    var t := Attempt(s, p, item);
    var rec := FromMeta(item.meta, item.line, s.q.nextSeq);
    Q.PushKeepsValid(s.q, item.meta, item.line);
    Q.AcceptedPush(s.q, item.meta, item.line);
    var k := |s.q.contents| + 1 - |t.q.contents|;
    assert t.h == s.h.(accepted := s.h.accepted + [Tagged(Some(p), rec)], evicted := s.h.evicted + s.q.contents[..k]);
    ViewAdmits(s, t, k, Tagged(Some(p), rec));
    AdmitKeepsOk(ViewOf(s), k, rec);
  }

  lemma AttemptKeepsQueueHistory(s: Sys, p: Pid, item: Item)
    requires Q.ValidState(s.q) && QueueHistory(s)
    ensures QueueHistory(Attempt(s, p, item))
  {
    if Q.Push(s.q, item.meta, item.line).1 == Q.Accepted {
      AcceptedKeepsQueueHistory(s, p, item);
    } else {
      Q.UnacceptedPush(s.q, item.meta, item.line);
      SameQueueHistory(s, Attempt(s, p, item));
    }
  }

  lemma SameQueueHistory(s: Sys, t: Sys)
    requires QueueHistory(s) && ViewOf(t) == ViewOf(s)
    ensures QueueHistory(t)
  {
  }

  lemma InternalPushKeepsQueueHistory(s: Sys, rec: Record)
    requires Q.ValidState(s.q) && QueueHistory(s)
    ensures QueueHistory(Next(s, InternalPush(rec)))
  {
    var t := Next(s, InternalPush(rec));
    Q.PushInternalKeepsValid(s.q, rec);
    if Q.PushInternal(s.q, rec).1 {
      assert s.q.contents[0..] == s.q.contents && s.q.contents[..0] == [];
      ViewAdmits(s, t, 0, Tagged(None, rec.(seqNo := s.q.nextSeq)));
      AdmitKeepsOk(ViewOf(s), 0, rec.(seqNo := s.q.nextSeq));
    } else {
      SameQueueHistory(s, t);
    }
  }

  lemma NextKeepsQueueHistory(s: Sys, a: Action)
    requires Q.ValidState(s.q) && QueueHistory(s) && Enabled(s, a)
    ensures QueueHistory(Next(s, a))
  {
    match a
    case PushStart(p, item) =>
      var s1 := Offer(s, p, item);
      SameQueueHistory(s, s1);
      AttemptKeepsQueueHistory(s1, p, item);
    case Resume(p) => AttemptKeepsQueueHistory(s, p, s.blocked[p].item);
    case InternalPush(rec) => InternalPushKeepsQueueHistory(s, rec);
    case PopNext(signalled) => PopKeepsQueueHistory(s, signalled);
    case _ => SameQueueHistory(s, Next(s, a));
  }
}
