/** What whole runs of queue and writer deliver: main results for every overflow policy. */
module Delivery {
  import opened LogRecords
  import opened Protocol
  import opened ProtocolSafety
  import opened ProtocolHistory
  import opened ProtocolAccounting
  import Q = QueueSpec
  import Ansi

  // In every state the queue holds the longest run of recent records that both caps allow: starting
  // any earlier after the last popped record would break a cap.
  lemma GreedyEvictionIsOptimal(cfg: Q.QueueConfig, stripAnsi: bool, acts: seq<Action>, s: Sys, k: nat)
    requires ValidConfig(cfg) && Run(Init(cfg, stripAnsi), acts) == Some(s)
    ensures Q.Fits(cfg, s.q.contents)
    ensures 0 <= s.h.passed <= Oldest(s) && s.q.contents == Recs(s.h.accepted)[Oldest(s)..]
    ensures s.h.passed <= k < Oldest(s) ==> !Q.Fits(cfg, Recs(s.h.accepted)[k..])
    ensures cfg.overflow != Q.DropOldest ==> s.h.passed == Oldest(s)
  {
    RunsAreSound(cfg, stripAnsi, acts, s);
    hide Run, Init, RawOf, WrittenOf, CleanAll, SummaryRecords, SummaryBytes, TotalLength;
    if s.h.passed <= k < Oldest(s) {
      Q.LongerSuffixesDoNotFit(cfg, Recs(s.h.accepted), s.h.passed, Oldest(s), k);
    }
  }

  // When the writer returns normally, the summaries in the log add up to exactly the records and bytes
  // lost.
  lemma DropConservation(cfg: Q.QueueConfig, stripAnsi: bool, acts: seq<Action>, s: Sys)
    requires ValidConfig(cfg) && Run(Init(cfg, stripAnsi), acts) == Some(s) && s.w.Done?
    ensures SummaryRecords(s.log) == |s.h.noRoom| + |s.h.evicted| == s.q.counters.droppedRecords
    ensures SummaryBytes(s.log) == TotalLength(s.h.noRoom) + Bytes(s.h.evicted) == s.q.counters.droppedBytes
  {
    RunsAreSound(cfg, stripAnsi, acts, s);
  }

  // And every accepted record, so every sequence number, was either written or evicted, once.
  lemma AcceptedIsWrittenOrEvicted(cfg: Q.QueueConfig, stripAnsi: bool, acts: seq<Action>, s: Sys)
    requires ValidConfig(cfg) && Run(Init(cfg, stripAnsi), acts) == Some(s) && s.w.Done?
    ensures multiset(RawOf(s.log)) + multiset(s.h.evicted) == multiset(Recs(s.h.accepted))
    ensures s.q.nextSeq == |RawOf(s.log)| + |s.h.evicted|
  {
    RunsAreSound(cfg, stripAnsi, acts, s);
    assert RawOf(s.log) == s.h.popped;
    AllDeparted(s.q.cfg, Recs(s.h.accepted), ViewOf(s).Lo(), s.h.passed, s.h.popped, s.h.evicted);
  }

  lemma AllDeparted(cfg: Q.QueueConfig, all: seq<Record>, lo: int, passed: int,
                    popped: seq<Record>, evicted: seq<Record>)
    requires Departed(cfg, all, lo, passed, popped, evicted) && lo == |all|
    ensures multiset(popped) + multiset(evicted) == multiset(all)
    ensures |popped| + |evicted| == |all|
  {
    assert all[..lo] == all;
    assert |multiset(popped) + multiset(evicted)| == |multiset(all)|;
  }

  // In every state, sequence numbers reach the sink strictly increasing, without gaps from 0 on unless
  // the policy evicts.
  lemma WrittenSequenceNumbers(cfg: Q.QueueConfig, stripAnsi: bool, acts: seq<Action>, s: Sys)
    requires ValidConfig(cfg) && Run(Init(cfg, stripAnsi), acts) == Some(s)
    ensures Increasing(RawOf(s.log))
    ensures cfg.overflow != Q.DropOldest ==>
              forall i :: 0 <= i < |RawOf(s.log)| ==> RawOf(s.log)[i].seqNo == i
  {
    RunsAreSound(cfg, stripAnsi, acts, s);
    hide Run, Init, RawOf;
    var raw, popped := RawOf(s.log), s.h.popped;
    assert forall i :: 0 <= i < |raw| ==> raw[i] == popped[i];
    if cfg.overflow != Q.DropOldest {
      assert forall i :: 0 <= i < |popped| ==> popped[i] == Recs(s.h.accepted)[i];
    }
  }

  // Block policy, sink that does not fail: at normal return the sink got exactly the accepted records
  // in order and no summary counted anything; the queue is empty and no drops are pending.
  lemma BlockIsLossless(cfg: Q.QueueConfig, stripAnsi: bool, acts: seq<Action>, s: Sys)
    requires ValidConfig(cfg) && cfg.overflow == Q.Block
    requires Run(Init(cfg, stripAnsi), acts) == Some(s) && s.w.Done?
    ensures RawOf(s.log) == Recs(s.h.accepted) && |RawOf(s.log)| == s.q.nextSeq
    ensures SummaryRecords(s.log) == 0
    ensures s.q.contents == [] && s.q.drops.records == 0 && s.q.closed
    ensures forall p :: By(p, s.h.accepted) + Get(s.h.refused, p) + Pending(s, p) == Get(s.h.offered, p)
  {
    RunsAreSound(cfg, stripAnsi, acts, s);
    assert Recs(s.h.accepted)[..Oldest(s)] == Recs(s.h.accepted);
    forall p ensures By(p, s.h.accepted) + Get(s.h.refused, p) + Pending(s, p) == Get(s.h.offered, p) {
      assert ProducerOk(s, p, Pending(s, p));
    }
  }

  // Many connections on one queue: what each got accepted is a subsequence of what it offered, under
  // every policy and in every state; under block it is all of it, once nothing was refused by close
  // and the producer is not inside Push.
  lemma ConnectionProjection(cfg: Q.QueueConfig, stripAnsi: bool, acts: seq<Action>, s: Sys, p: Pid)
    requires ValidConfig(cfg) && Run(Init(cfg, stripAnsi), acts) == Some(s)
    ensures IsSubsequence(By(p, s.h.accepted), Get(s.h.offered, p))
    ensures cfg.overflow == Q.Block && Get(s.h.refused, p) == [] && p !in s.blocked ==>
              By(p, s.h.accepted) == Get(s.h.offered, p)
    ensures Get(s.h.refused, p) != [] ==> s.q.closed
  {
    RunsAreSound(cfg, stripAnsi, acts, s);
    ProjectionOf(s, p);
  }

  lemma ProjectionOf(s: Sys, p: Pid)
    requires ProducersOk(s)
    ensures IsSubsequence(By(p, s.h.accepted), Get(s.h.offered, p))
    ensures s.q.cfg.overflow == Q.Block && Get(s.h.refused, p) == [] && p !in s.blocked ==>
              By(p, s.h.accepted) == Get(s.h.offered, p)
    ensures Get(s.h.refused, p) != [] ==> s.q.closed
  {
    assert ProducerOk(s, p, Pending(s, p));
    var rest := Get(s.h.refused, p) + Pending(s, p);
    assert Outcome(s, p) + Pending(s, p) == By(p, s.h.accepted) + rest;
    SubsequenceDropTail(By(p, s.h.accepted), rest, Get(s.h.offered, p));
  }

  // sink.Close runs once, when the writer returns nil or fails closing, and nothing is written after it.
  lemma SinkClosedOnceAtTheEnd(cfg: Q.QueueConfig, stripAnsi: bool, acts: seq<Action>, s: Sys,
                               more: seq<Action>, t: Sys)
    requires ValidConfig(cfg) && Run(Init(cfg, stripAnsi), acts) == Some(s)
    requires Run(s, more) == Some(t)
    ensures s.sinkCloses <= 1 && (s.w.Done? ==> s.sinkCloses == 1)
    ensures s.sinkCloses == 1 ==> t.log == s.log && t.sinkCloses == 1 && t.w == s.w
  {
    RunsAreSound(cfg, stripAnsi, acts, s);
    if s.sinkCloses == 1 {
      EndedWriterStays(s, more);
    }
  }

  lemma EndedWriterTakesNoStep(s: Sys, a: Action)
    requires Q.ValidState(s.q) && Enabled(s, a) && (s.w.Done? || s.w.Failed?)
    ensures var t := Next(s, a); t.log == s.log && t.sinkCloses == s.sinkCloses && t.w == s.w
  {
  }

  lemma {:induction false} EndedWriterStays(s: Sys, acts: seq<Action>)
    requires Run(s, acts).Some? && (s.w.Done? || s.w.Failed?)
    ensures var t := Run(s, acts).value; t.log == s.log && t.sinkCloses == s.sinkCloses && t.w == s.w
  {
    if acts != [] {
      EndedWriterStays(s, acts[..|acts| - 1]);
      EndedWriterTakesNoStep(Run(s, acts[..|acts| - 1]).value, acts[|acts| - 1]);
    }
  }

  /* ---- Sink errors ---- */

  // A call into the sink that failed.
  predicate IsSinkError(a: Action) {
    match a
    case Tick(ok) => !ok
    case WriteSummary(ok, _) => !ok
    case WriteNext(ok) => !ok
    case CloseSink(ok) => !ok
    case _ => false
  }

  // The writer fails exactly if some call into the sink did, and never goes on after one: the failed call is the
  // last of its calls.
  lemma {:induction false} FirstErrorEndsTheWriter(s0: Sys, acts: seq<Action>)
    requires s0.w.Parked? && Run(s0, acts).Some?
    ensures SinkFailed(Run(s0, acts).value) <==> exists i :: 0 <= i < |acts| && IsSinkError(acts[i])
    ensures forall i, j :: 0 <= i < j < |acts| && IsSinkError(acts[i]) ==> !IsSinkCall(acts[j])
  {
    if acts != [] {
      var n := |acts| - 1;
      FirstErrorEndsTheWriter(s0, acts[..n]);
      ErrorStep(Run(s0, acts[..n]).value, acts[n]);
      hide Next, Enabled, SinkFailed, IsSinkError, IsSinkCall;
      assert Run(s0, acts) == Some(Next(Run(s0, acts[..n]).value, acts[n]));
      hide Run;
      assert forall i :: 0 <= i < n ==> acts[..n][i] == acts[i];
    }
  }

  predicate IsSinkCall(a: Action) {
    a.Tick? || a.WriteSummary? || a.WriteNext? || a.CloseSink?
  }

  lemma ErrorStep(s: Sys, a: Action)
    requires Q.ValidState(s.q) && Enabled(s, a)
    ensures SinkFailed(Next(s, a)) <==> SinkFailed(s) || IsSinkError(a)
    ensures SinkFailed(s) ==> !IsSinkCall(a)
  {
  }

  /* ---- Stripping across records ---- */

  // The lines that go through the stripper.
  function UserLines(rs: seq<Record>): seq<bytes> {
    if rs == [] then []
    else
      var r := rs[|rs| - 1];
      UserLines(rs[..|rs| - 1]) + if r.end == Internal then [] else [r.line]
  }

  lemma UserLinesSnoc(rs: seq<Record>, r: Record)
    ensures UserLines(rs + [r]) == UserLines(rs) + if r.end == Internal then [] else [r.line]
  {
    assert (rs + [r])[..|rs|] == rs;
  }

  lemma {:induction false} CleaningIsStripping(st: Ansi.State, rs: seq<Record>)
    ensures CleanAll(Some(st), rs).0 == Some(Ansi.StripLines(st, UserLines(rs)).0)
    ensures UserLines(CleanAll(Some(st), rs).1) == Ansi.StripLines(st, UserLines(rs)).1
  {
    if rs != [] {
      var n := |rs| - 1;
      CleaningIsStripping(st, rs[..n]);
      var (strip, done) := CleanAll(Some(st), rs[..n]);
      UserLinesSnoc(done, Cleaned(strip, rs[n]).1);
      if rs[n].end == Internal {
        assert UserLines(rs) == UserLines(rs[..n]);
      } else {
        Ansi.StripLinesSnoc(st, UserLines(rs[..n]), rs[n].line);
      }
    }
  }

  // Apart from the line of a user record, cleaning changes nothing.
  lemma {:induction false} CleaningKeepsTheRest(strip: Option<Ansi.State>, rs: seq<Record>, i: nat)
    requires i < |rs|
    ensures var done := CleanAll(strip, rs).1;
            && |done| == |rs|
            && done[i].(line := rs[i].line) == rs[i]
            && (rs[i].end == Internal ==> done[i] == rs[i])
  {
    if i < |rs| - 1 {
      CleaningKeepsTheRest(strip, rs[..|rs| - 1], i);
    } else if |rs| > 1 {
      CleaningKeepsTheRest(strip, rs[..|rs| - 1], 0);
    }
  }

  // With stripping on, in every state: the user lines in the log, joined, are the stripped join of the
  // user lines dequeued. It does not matter where the framer cut the stream.
  lemma LogIsStrippedStream(cfg: Q.QueueConfig, acts: seq<Action>, s: Sys)
    requires ValidConfig(cfg) && Run(Init(cfg, true), acts) == Some(s)
    ensures Flatten(UserLines(WrittenOf(s.log))) ==
            Ansi.StripFrom(Ansi.Normal, Flatten(UserLines(RawOf(s.log)))).1
  {
    RunsAreSound(cfg, true, acts, s);
    CleaningIsStripping(Ansi.Normal, RawOf(s.log));
    Ansi.StripLinesIsStrip(Ansi.Normal, UserLines(RawOf(s.log)));
  }

  // With stripping off the log holds the dequeued records themselves.
  lemma LogIsRawWhenKept(cfg: Q.QueueConfig, acts: seq<Action>, s: Sys)
    requires ValidConfig(cfg) && Run(Init(cfg, false), acts) == Some(s)
    ensures WrittenOf(s.log) == RawOf(s.log)
  {
    RunsAreSound(cfg, false, acts, s);
    KeepingIsIdentity(RawOf(s.log));
  }

  lemma {:induction false} KeepingIsIdentity(rs: seq<Record>)
    ensures CleanAll(None, rs) == (None, rs)
  {
    if rs != [] {
      KeepingIsIdentity(rs[..|rs| - 1]);
      assert rs == rs[..|rs| - 1] + [rs[|rs| - 1]];
    }
  }
}
