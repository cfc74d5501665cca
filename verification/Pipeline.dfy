/** Framer, queue and writer together: from the byte stream of one source to the sink. */
module Pipeline {
  import opened LogRecords
  import P = Protocol
  import Acc = ProtocolAccounting
  import Delivery
  import Shutdown
  import Safety = ProtocolSafety
  import Progress = ProtocolProgress
  import Q = QueueSpec
  import F = FramerSpec
  import Fr = Framer
  import Ansi

  function FragmentOf(i: P.Item): F.Fragment {
    F.Fragment(i.line, i.meta.end, i.meta.continued)
  }

  function FragmentsOf(items: seq<P.Item>): (fs: seq<F.Fragment>)
    ensures |fs| == |items|
    ensures forall k :: 0 <= k < |items| ==> fs[k] == FragmentOf(items[k])
  {
    seq(|items|, k requires 0 <= k < |items| => FragmentOf(items[k]))
  }

  function Fragments(rs: seq<Record>): (fs: seq<F.Fragment>)
    ensures |fs| == |rs|
    ensures forall k :: 0 <= k < |rs| ==> fs[k] == FragmentOf(Acc.ItemOf(rs[k]))
  {
    seq(|rs|, k requires 0 <= k < |rs| => FragmentOf(Acc.ItemOf(rs[k])))
  }

  // Only p pushes; besides its records there may be the queue's own diagnostics.
  ghost predicate SoleProducer(acts: seq<P.Action>, p: P.Pid) {
    forall a :: a in acts ==> (a.PushStart? ==> a.p == p) && (a.InternalPush? ==> a.rec.end == Internal)
  }

  ghost predicate FromSoleProducer(ts: seq<P.Tagged>, p: P.Pid) {
    forall t :: t in ts ==> t.owner == Some(p) || (t.owner == None && t.rec.end == Internal)
  }

  // p is a framer that saw h and then the end of its input: it called Push as FramerSpec says.
  ghost predicate FramedBy(s: P.Sys, p: P.Pid, h: seq<F.Event>, max: nat) {
    FragmentsOf(P.Get(s.h.offered, p)) == F.Finish(F.Replay(h, max)).out
  }

  predicate IsFrom(meta: RecordMeta, time: int, source: string, metadata: map<string, string>) {
    meta.time == time && meta.source == source && meta.metadata == metadata
  }

  // The arguments of the Push calls a framer has made, time(k) being the clock at the k-th.
  method ItemsOf(f: Fr.Framer, time: nat -> int, source: string, metadata: map<string, string>) returns (items: seq<P.Item>)
    ensures FragmentsOf(items) == f.Out()
    ensures forall k :: 0 <= k < |items| ==> IsFrom(items[k].meta, time(k), source, metadata)
  {
    items := [];
    for k := 0 to |f.pushed|
      invariant |items| == k && forall j :: 0 <= j < k ==> IsFrom(items[j].meta, time(j), source, metadata)
      invariant FragmentsOf(items) == f.Out()[..k]
    {
      var p := f.pushed[k];
      items := items + [P.Item(RecordMeta(time(k), p.end, source, p.continued, metadata), p.line[..])];
      assert f.Out()[k] == F.Fragment(p.line[..], p.end, p.continued);
    }
  }

  // RunFramer on a queue, for everything its select may receive: the arguments of its Push calls, what ended
  // its input, if anything did, and the history h it has seen: the bytes received up to then, and the timeouts
  // on unfinished lines. A producer that makes these calls is FramedBy h.
  method RunFramer(events: seq<Fr.Event>, maxFragmentBytes: nat, partialFlushInterval: nat,
                   time: nat -> int, source: string, metadata: map<string, string>)
    returns (items: seq<P.Item>, end: Option<Fr.Event>, ghost h: seq<F.Event>, ghost pieces: seq<seq<F.Event>>)
    requires maxFragmentBytes > 0
    ensures end == if Fr.EndAt(events) < |events| then Some(events[Fr.EndAt(events)]) else None
    ensures Fr.Logged([], h, events[..Fr.EndAt(events)], partialFlushInterval, pieces)
    ensures F.StreamOf(h) == Flatten(Fr.DataOf(events[..Fr.EndAt(events)]))
    ensures var s := F.Replay(h, maxFragmentBytes);
            FragmentsOf(items) == if end.Some? then F.Finish(s).out else s.out
    ensures forall k :: 0 <= k < |items| ==> IsFrom(items[k].meta, time(k), source, metadata)
    // one Timeout record for each time the timer fired on an unfinished line
    ensures F.Ended(FragmentsOf(items), Timeout) ==
            if partialFlushInterval > 0 then Fr.Timeouts(events[..Fr.EndAt(events)]) else 0
  {
    hide F.Finish, F.Replay, Flatten, Fr.DataOf, Fr.Logged, F.Unfinished;
    var f := new Fr.Framer(maxFragmentBytes, partialFlushInterval);
    end, pieces := f.Run(events);
    h := f.history;
    assert F.StreamOf([]) + F.StreamOf(h) == F.StreamOf(h);
    items := ItemsOf(f, time, source, metadata);
    Fr.LoggedTimeouts(h, events[..Fr.EndAt(events)], partialFlushInterval, pieces);
    TimeoutsAreFlushes(h, maxFragmentBytes);
  }

  lemma TimeoutsAreFlushes(h: seq<F.Event>, max: nat)
    requires max > 0
    ensures F.Ended(F.Replay(h, max).out, Timeout) == F.Flushes(h)
    ensures F.Ended(F.Finish(F.Replay(h, max)).out, Timeout) == F.Flushes(h)
  {
    var s := F.Replay(h, max);
    F.EndsAreCounted(h, max);
    hide F.Replay, F.Flushes, F.Ended;
    F.EndedSnoc(s.out, F.Fragment(s.buf, EOF, s.continued), Timeout);
  }

  lemma {:induction false} SoleProducerOwns(s: P.Sys, acts: seq<P.Action>, p: P.Pid)
    requires P.Run(s, acts).Some? && SoleProducer(acts, p)
    requires FromSoleProducer(s.h.accepted, p) && s.blocked.Keys <= {p}
    ensures FromSoleProducer(P.Run(s, acts).value.h.accepted, p) && P.Run(s, acts).value.blocked.Keys <= {p}
  {
    if acts != [] {
      var n := |acts| - 1;
      assert acts[n] in acts && forall a :: a in acts[..n] ==> a in acts;
      SoleProducerOwns(s, acts[..n], p);
      OwnerStep(P.Run(s, acts[..n]).value, acts[n], p);
    }
  }

  lemma OwnerStep(s: P.Sys, a: P.Action, p: P.Pid)
    requires Q.ValidState(s.q) && P.Enabled(s, a)
    requires (a.PushStart? ==> a.p == p) && (a.InternalPush? ==> a.rec.end == Internal)
    requires FromSoleProducer(s.h.accepted, p) && s.blocked.Keys <= {p}
    ensures FromSoleProducer(P.Next(s, a).h.accepted, p) && P.Next(s, a).blocked.Keys <= {p}
  {
    match a
    case PushStart(_, item) =>
      AttemptOwner(P.Offer(s, p, item), p, item);
    case Resume(x) =>
      assert x in s.blocked.Keys;
      AttemptOwner(s, p, s.blocked[p].item);
    case _ =>
  }

  lemma AttemptOwner(s: P.Sys, p: P.Pid, item: P.Item)
    requires Q.ValidState(s.q) && FromSoleProducer(s.h.accepted, p) && s.blocked.Keys <= {p}
    ensures FromSoleProducer(P.Attempt(s, p, item).h.accepted, p) && P.Attempt(s, p, item).blocked.Keys <= {p}
  {
  }

  // The records that are not diagnostics.
  function UserRecords(rs: seq<Record>): seq<Record> {
    if rs == [] then []
    else
      var r := rs[|rs| - 1];
      UserRecords(rs[..|rs| - 1]) + if r.end == Internal then [] else [r]
  }

  lemma {:induction false} UserRecordsAreOwned(p: P.Pid, ts: seq<P.Tagged>)
    requires FromSoleProducer(ts, p)
    requires forall f :: f in FragmentsOf(Acc.By(p, ts)) ==> f.end != Internal
    ensures Fragments(UserRecords(P.Recs(ts))) == FragmentsOf(Acc.By(p, ts))
  {
    if ts != [] {
      var n := |ts| - 1;
      var rs, items := P.Recs(ts), Acc.By(p, ts);
      assert ts[n] in ts && forall t :: t in ts[..n] ==> t in ts;
      assert rs[..n] == P.Recs(ts[..n]);
      var before := Acc.By(p, ts[..n]);
      if ts[n].owner == Some(p) {
        assert items == before + [Acc.ItemOf(ts[n].rec)];
        FragmentsSnoc(before, Acc.ItemOf(ts[n].rec));
      } else {
        assert items == before;
      }
      UserRecordsAreOwned(p, ts[..n]);
      RecordsSnoc(UserRecords(rs[..n]), rs[n]);
    }
  }

  lemma FragmentsSnoc(items: seq<P.Item>, i: P.Item)
    ensures FragmentsOf(items + [i]) == FragmentsOf(items) + [FragmentOf(i)]
    ensures FragmentOf(i) in FragmentsOf(items + [i])
    ensures forall f :: f in FragmentsOf(items) ==> f in FragmentsOf(items + [i])
  {
    assert FragmentsOf(items + [i]) == FragmentsOf(items) + [FragmentOf(i)];
    assert FragmentsOf(items + [i])[|items|] == FragmentOf(i);
  }

  lemma RecordsSnoc(rs: seq<Record>, r: Record)
    ensures Fragments(rs + [r]) == Fragments(rs) + [FragmentOf(Acc.ItemOf(r))]
    ensures rs + [] == rs
  {
  }

  // Block policy, one framer, orderly shutdown, a sink that does not fail: the user records the writer
  // dequeued are what the framer emitted, record for record.
  lemma DequeuedIsFramed(cfg: Q.QueueConfig, stripAnsi: bool, before: seq<P.Action>, after: seq<P.Action>, s: P.Sys,
                         p: P.Pid, h: seq<F.Event>, max: nat)
    requires P.ValidConfig(cfg) && cfg.overflow == Q.Block && max > 0
    requires Shutdown.Orderly(P.Init(cfg, stripAnsi), before, after)
    requires P.Run(P.Init(cfg, stripAnsi), before + [P.CloseQueue] + after) == Some(s) && s.w.Done?
    requires SoleProducer(before + [P.CloseQueue] + after, p) && FramedBy(s, p, h, max)
    ensures Fragments(UserRecords(Acc.RawOf(s.log))) == F.Finish(F.Replay(h, max)).out
  {
    Shutdown.EveryRecordIsDelivered(cfg, stripAnsi, before, after, s, p);
    SoleProducerOwns(P.Init(cfg, stripAnsi), before + [P.CloseQueue] + after, p);
    F.NoInternalFragments(h, max);
    UserRecordsAreOwned(p, s.h.accepted);
  }

  // End to end, ANSI kept: the sink's user records give back the input stream, for every interleaving,
  // every chunking, every placement of timeouts, and whatever diagnostics get in between.
  lemma SinkHoldsTheStream(cfg: Q.QueueConfig, before: seq<P.Action>, after: seq<P.Action>, s: P.Sys,
                           p: P.Pid, h: seq<F.Event>, max: nat)
    requires P.ValidConfig(cfg) && cfg.overflow == Q.Block && max > 0
    requires Shutdown.Orderly(P.Init(cfg, false), before, after)
    requires P.Run(P.Init(cfg, false), before + [P.CloseQueue] + after) == Some(s) && s.w.Done?
    requires SoleProducer(before + [P.CloseQueue] + after, p) && FramedBy(s, p, h, max)
    ensures F.Rebuild(Fragments(UserRecords(Acc.WrittenOf(s.log)))) == F.Normalized(h)
  {
    DequeuedIsFramed(cfg, false, before, after, s, p, h, max);
    Delivery.LogIsRawWhenKept(cfg, before + [P.CloseQueue] + after, s);
    F.FinishedStreamIsRebuilt(h, max);
  }

  lemma {:induction false} UserLinesOfFragments(rs: seq<Record>)
    ensures Delivery.UserLines(rs) == F.LinesOf(Fragments(UserRecords(rs)))
  {
    if rs != [] {
      var n := |rs| - 1;
      UserLinesOfFragments(rs[..n]);
      RecordsSnoc(UserRecords(rs[..n]), rs[n]);
      if rs[n].end != Internal {
        assert F.LinesOf(Fragments(UserRecords(rs))) == F.LinesOf(Fragments(UserRecords(rs[..n]))) + [rs[n].line];
      }
    }
  }

  // With stripping on: the user lines in the sink, joined, are the stripped join of the framer's lines.
  // Where the framer cut the stream makes no difference.
  lemma SinkHoldsTheStrippedStream(cfg: Q.QueueConfig, before: seq<P.Action>, after: seq<P.Action>, s: P.Sys,
                                   p: P.Pid, h: seq<F.Event>, max: nat)
    requires P.ValidConfig(cfg) && cfg.overflow == Q.Block && max > 0
    requires Shutdown.Orderly(P.Init(cfg, true), before, after)
    requires P.Run(P.Init(cfg, true), before + [P.CloseQueue] + after) == Some(s) && s.w.Done?
    requires SoleProducer(before + [P.CloseQueue] + after, p) && FramedBy(s, p, h, max)
    ensures Flatten(Delivery.UserLines(Acc.WrittenOf(s.log))) ==
            Ansi.StripFrom(Ansi.Normal, Flatten(F.LinesOf(F.Finish(F.Replay(h, max)).out))).1
  {
    DequeuedIsFramed(cfg, true, before, after, s, p, h, max);
    Delivery.LogIsStrippedStream(cfg, before + [P.CloseQueue] + after, s);
    UserLinesOfFragments(Acc.RawOf(s.log));
  }

  // Every producer is a framer, possibly still running, whose fragments fit the queue's byte cap: its
  // pushes so far are the beginning of what FramerSpec says.
  ghost predicate AllFramers(s: P.Sys, max: nat) {
    forall p :: exists h :: FragmentsOf(P.Get(s.h.offered, p)) <= F.Finish(F.Replay(h, max)).out
  }

  // With the validated bound maxFragmentBytes <= queueBytes no framer ever offers an oversized line, so
  // the progress results hold for every run fed by framers: nothing is missed and nobody hangs.
  lemma FramersNeverHang(cfg: Q.QueueConfig, stripAnsi: bool, acts: seq<P.Action>, s: P.Sys, max: nat)
    requires P.ValidConfig(cfg) && 0 < max <= cfg.maxBytes
    requires P.Run(P.Init(cfg, stripAnsi), acts) == Some(s) && AllFramers(s, max)
    ensures !s.h.oversize
    ensures s.w.Parked? && (s.q.contents != [] || s.q.drops.records > 0) ==> P.Enabled(s, P.Receive)
    ensures !Progress.CanStep(s) ==> s.blocked == map[]
  {
    Progress.OnlyOffersAreOversize(cfg, stripAnsi, acts);
    Safety.RunsAreSafe(cfg, stripAnsi, acts);
    if s.h.oversize {
      var p, i :| 0 <= i < |P.Get(s.h.offered, p)| && |P.Get(s.h.offered, p)[i].line| > s.q.cfg.maxBytes;
      FramedLinesFit(P.Get(s.h.offered, p), i, max, s, p);
      assert false;
    }
    Progress.LostWakeupFreedom(cfg, stripAnsi, acts, s);
    if !Progress.CanStep(s) {
      Progress.AtRestNobodyIsBlocked(s);
    }
  }

  lemma FramedLinesFit(items: seq<P.Item>, i: nat, max: nat, s: P.Sys, p: P.Pid)
    requires AllFramers(s, max) && max > 0 && items == P.Get(s.h.offered, p) && i < |items|
    ensures |items[i].line| <= max
  {
    var h :| FragmentsOf(items) <= F.Finish(F.Replay(h, max)).out;
    F.FinishedStreamIsRebuilt(h, max);
    var out := F.Finish(F.Replay(h, max)).out;
    assert F.FragmentOk(out, i, max);
    assert FragmentsOf(items)[i] == out[i];
  }
}
