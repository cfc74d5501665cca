/** sink_http.go: batching with bounded retry, against a server that answers each POST as it likes. */
module HttpSink {
  import opened LogRecords

  // What client.Do comes back with.
  datatype Outcome = Response(status: int) | TransportError

  datatype Post = Post(payload: bytes, outcome: Outcome)

  // A batch the sink let go of: acknowledged by a 2xx, or dropped because of a 401 or 403.
  datatype Batch = Batch(records: seq<Record>, acked: bool)

  datatype Config = Config(batchRecords: int, batchBytes: int, retries: int)

  const DEFAULT_BATCH_BYTES := 4 * 1024 * 1024

  predicate IsAck(o: Outcome) {
    o.Response? && 200 <= o.status < 300
  }

  predicate IsAuthDenial(o: Outcome) {
    o.Response? && (o.status == 401 || o.status == 403)
  }

  // The final outcomes with which Flush returns nil.
  predicate Settles(o: Outcome) {
    IsAck(o) || IsAuthDenial(o)
  }

  function Answer(server: nat -> Outcome, k: nat): Outcome {
    server(k)
  }

  function Encoding(encode: Record -> bytes, r: Record): bytes {
    encode(r)
  }

  function EncodeAll(encode: Record -> bytes, rs: seq<Record>): bytes {
    if rs == [] then [] else EncodeAll(encode, rs[..|rs| - 1]) + Encoding(encode, rs[|rs| - 1])
  }

  lemma EncodeAllSnoc(encode: Record -> bytes, rs: seq<Record>, r: Record)
    ensures EncodeAll(encode, rs + [r]) == EncodeAll(encode, rs) + Encoding(encode, r)
  {
    assert (rs + [r])[..|rs|] == rs;
  }

  function Parts(bs: seq<Batch>): (parts: seq<seq<Record>>)
    ensures |parts| == |bs| && forall i :: 0 <= i < |bs| ==> parts[i] == bs[i].records
  {
    seq(|bs|, i requires 0 <= i < |bs| => bs[i].records)
  }

  // The records of the batches, in order.
  function RecordsOf(bs: seq<Batch>): seq<Record> {
    Flatten(Parts(bs))
  }

  lemma RecordsSnoc(bs: seq<Batch>, b: Batch)
    ensures RecordsOf(bs + [b]) == RecordsOf(bs) + b.records
  {
    assert Parts(bs + [b]) == Parts(bs) + [b.records];
    FlattenSnoc(Parts(bs), b.records);
  }

  // At most batchRecords records, and below batchBytes until the last one.
  ghost predicate WithinLimits(encode: Record -> bytes, cfg: Config, rs: seq<Record>) {
    && 0 < |rs| <= cfg.batchRecords
    && |EncodeAll(encode, rs[..|rs| - 1])| < cfg.batchBytes
  }

  /* ---- The wire against the records given ---- */

  // given[lo..hi], as what one POST carried; whether a Flush or Close asked for it, or WriteRecord itself.
  datatype Span = Span(lo: nat, hi: nat, asked: bool)

  ghost predicate Carries(encode: Record -> bytes, given: seq<Record>, p: Post, s: Span) {
    s.lo < s.hi <= |given| && p.payload == EncodeAll(encode, given[s.lo..s.hi])
  }

  // Every POST carries a stretch of the records given, and has the answer the server gave to it.
  ghost predicate WireOk(encode: Record -> bytes, server: nat -> Outcome, given: seq<Record>, wire: seq<Post>, spans: seq<Span>) {
    && |spans| == |wire|
    && forall i :: 0 <= i < |wire| ==> Carries(encode, given, wire[i], spans[i]) && wire[i].outcome == Answer(server, i)
  }

  // The batch was on the wire, and the answer was a 2xx if it counts as acknowledged and otherwise 401 or 403.
  ghost predicate SettledBy(encode: Record -> bytes, b: Batch, p: Post) {
    p.payload == EncodeAll(encode, b.records) && Settles(p.outcome) && b.acked == IsAck(p.outcome) && b.records != []
  }

  // Each batch was settled by a POST of its own, in order, and every acknowledgement settled a batch.
  ghost predicate SettlementsOk(encode: Record -> bytes, wire: seq<Post>, batches: seq<Batch>, at: seq<nat>) {
    && |at| == |batches|
    && (forall i, j :: 0 <= i < j < |at| ==> at[i] < at[j])
    && (forall i :: 0 <= i < |at| ==> at[i] < |wire| && SettledBy(encode, batches[i], wire[at[i]]))
    && (forall k :: 0 <= k < |wire| && IsAck(wire[k].outcome) ==> k in at)
  }

  lemma WireKeepsOnGiven(encode: Record -> bytes, server: nat -> Outcome, given: seq<Record>, wire: seq<Post>, spans: seq<Span>,
                         r: Record)
    requires WireOk(encode, server, given, wire, spans)
    ensures WireOk(encode, server, given + [r], wire, spans)
  {
    forall i | 0 <= i < |wire| ensures Carries(encode, given + [r], wire[i], spans[i]) {
      var s := spans[i];
      assert Carries(encode, given, wire[i], s);
      assert (given + [r])[s.lo..s.hi] == given[s.lo..s.hi];
    }
  }

  // n more POSTs of the same stretch.
  lemma WireGrows(encode: Record -> bytes, server: nat -> Outcome, given: seq<Record>, wire: seq<Post>, spans: seq<Span>,
                  s: Span, n: nat)
    requires WireOk(encode, server, given, wire, spans) && s.lo < s.hi <= |given|
    ensures WireOk(encode, server, given, wire + Posts(server, EncodeAll(encode, given[s.lo..s.hi]), |wire|, n),
                   spans + seq(n, _ => s))
  {
  }

  lemma SettlementsKeepUnsettled(encode: Record -> bytes, wire: seq<Post>, batches: seq<Batch>, at: seq<nat>, more: seq<Post>)
    requires SettlementsOk(encode, wire, batches, at) && forall p :: p in more ==> !IsAck(p.outcome)
    ensures SettlementsOk(encode, wire + more, batches, at)
  {
    var all := wire + more;
    assert forall j :: 0 <= j < |more| ==> more[j] in more;
    forall k | 0 <= k < |all| && IsAck(all[k].outcome) ensures k in at {
      assert k < |wire|;
    }
  }

  lemma SettlementsGrow(encode: Record -> bytes, wire: seq<Post>, batches: seq<Batch>, at: seq<nat>, more: seq<Post>, last: Post,
                        b: Batch)
    requires SettlementsOk(encode, wire, batches, at) && forall p :: p in more ==> !IsAck(p.outcome)
    requires SettledBy(encode, b, last)
    ensures SettlementsOk(encode, wire + more + [last], batches + [b], at + [|wire| + |more|])
  {
    SettlementsKeepUnsettled(encode, wire, batches, at, more);
    var before, after, at' := wire + more, wire + more + [last], at + [|wire| + |more|];
    forall i | 0 <= i < |at'| ensures at'[i] < |after| && SettledBy(encode, (batches + [b])[i], after[at'[i]]) {
      if i < |at| {
        assert at[i] < |before| && SettledBy(encode, batches[i], before[at[i]]);
      }
    }
    forall k | 0 <= k < |after| && IsAck(after[k].outcome) ensures k in at' {
      if k < |before| {
        assert before[k] == after[k] && k in at;
      } else {
        assert at'[|at|] == k;
      }
    }
  }

  // The n POSTs of one payload from the first-th on.
  function Posts(server: nat -> Outcome, payload: bytes, first: nat, n: nat): (ps: seq<Post>)
    ensures |ps| == n && forall k :: 0 <= k < n ==> ps[k] == Post(payload, Answer(server, first + k))
  {
    seq(n, k requires 0 <= k < n => Post(payload, Answer(server, first + k)))
  }

  lemma PostsSnoc(server: nat -> Outcome, before: seq<Post>, payload: bytes, first: nat, n: nat)
    ensures before + Posts(server, payload, first, n) + [Post(payload, Answer(server, first + n))]
         == before + Posts(server, payload, first, n + 1)
  {
  }

  // n POSTs of one payload, at most retries + 1: none acknowledged before the last, and all of them if none was.
  ghost predicate Sends(server: nat -> Outcome, retries: int, before: seq<Post>, after: seq<Post>, payload: bytes, n: nat) {
    && n <= retries + 1 && after == before + Posts(server, payload, |before|, n)
    && (forall i :: |before| <= i < |before| + n - 1 ==> !IsAck(Answer(server, i)))
    && (n > 0 && !IsAck(LastAnswer(server, before, n)) ==> n == retries + 1)
  }

  // The outcome of the last of n POSTs.
  function LastAnswer(server: nat -> Outcome, before: seq<Post>, n: nat): Outcome
    requires n > 0
  {
    Answer(server, |before| + n - 1)
  }

  // What one flush of records leaves of the settlements, from the outcome of its last POST.
  lemma FlushSettles(encode: Record -> bytes, server: nat -> Outcome, retries: int, before: seq<Post>, after: seq<Post>,
                     batches: seq<Batch>, at: seq<nat>, records: seq<Record>, n: nat)
    requires SettlementsOk(encode, before, batches, at) && n > 0 && records != []
    requires Sends(server, retries, before, after, EncodeAll(encode, records), n)
    ensures var last := LastAnswer(server, before, n);
            && (Settles(last) ==> SettlementsOk(encode, after, batches + [Batch(records, IsAck(last))], at + [|before| + n - 1]))
            && (!Settles(last) ==> SettlementsOk(encode, after, batches, at) && n == retries + 1)
  {
    var payload := EncodeAll(encode, records);
    var more, last := Posts(server, payload, |before|, n - 1), Post(payload, LastAnswer(server, before, n));
    SendsLast(server, retries, before, after, payload, n);
    hide SettlementsOk, EncodeAll, Sends, Posts, IsAuthDenial;
    if Settles(last.outcome) {
      SettlementsGrow(encode, before, batches, at, more, last, Batch(records, IsAck(last.outcome)));
    } else {
      Assoc(before, more, [last]);
      SettlementsKeepUnsettled(encode, before, batches, at, more + [last]);
    }
  }

  lemma SendsLast(server: nat -> Outcome, retries: int, before: seq<Post>, after: seq<Post>, payload: bytes, n: nat)
    requires Sends(server, retries, before, after, payload, n) && n > 0
    ensures var more, last := Posts(server, payload, |before|, n - 1), Post(payload, LastAnswer(server, before, n));
            && after == before + more + [last]
            && (forall p :: p in more ==> !IsAck(p.outcome))
            && (!IsAck(last.outcome) ==> n == retries + 1)
  {
    PostsSnoc(server, before, payload, |before|, n - 1);
  }

  // Every POST was within the limits.
  ghost predicate LimitsOk(encode: Record -> bytes, cfg: Config, given: seq<Record>, spans: seq<Span>) {
    forall i :: 0 <= i < |spans| ==>
      spans[i].lo <= spans[i].hi <= |given| && WithinLimits(encode, cfg, given[spans[i].lo..spans[i].hi])
  }

  lemma LimitsKeepOnGiven(encode: Record -> bytes, cfg: Config, given: seq<Record>, spans: seq<Span>, r: Record)
    requires LimitsOk(encode, cfg, given, spans)
    ensures LimitsOk(encode, cfg, given + [r], spans)
  {
    hide WithinLimits;
    forall i | 0 <= i < |spans|
      ensures spans[i].lo <= spans[i].hi <= |given + [r]| && WithinLimits(encode, cfg, (given + [r])[spans[i].lo..spans[i].hi])
    {
      assert (given + [r])[spans[i].lo..spans[i].hi] == given[spans[i].lo..spans[i].hi];
    }
  }

  // Enough for WriteRecord to send.
  predicate IsFull(encode: Record -> bytes, cfg: Config, rs: seq<Record>) {
    |rs| >= cfg.batchRecords || |EncodeAll(encode, rs)| >= cfg.batchBytes
  }

  // Nothing less was sent unless somebody asked for it.
  ghost predicate EagerOk(encode: Record -> bytes, cfg: Config, given: seq<Record>, spans: seq<Span>) {
    forall i :: 0 <= i < |spans| && !spans[i].asked ==>
      spans[i].lo <= spans[i].hi <= |given| && IsFull(encode, cfg, given[spans[i].lo..spans[i].hi])
  }

  lemma EagerKeepsOnGiven(encode: Record -> bytes, cfg: Config, given: seq<Record>, spans: seq<Span>, r: Record)
    requires EagerOk(encode, cfg, given, spans)
    ensures EagerOk(encode, cfg, given + [r], spans)
  {
    hide IsFull;
    forall i | 0 <= i < |spans| && !spans[i].asked
      ensures spans[i].lo <= spans[i].hi <= |given + [r]| && IsFull(encode, cfg, (given + [r])[spans[i].lo..spans[i].hi])
    {
      assert (given + [r])[spans[i].lo..spans[i].hi] == given[spans[i].lo..spans[i].hi];
    }
  }

  // What the sink holds and has done, apart from the list of records given.
  datatype State = State(buf: bytes, pending: seq<Record>, wire: seq<Post>, batches: seq<Batch>, settledBy: seq<nat>, failed: bool)

  // A flush from s to t that makes n POSTs and reports ok. All POSTs carry the buffer. If the last one was
  // acknowledged or denied, it settles everything pending as one batch; otherwise everything stays.
  ghost predicate Flushes(server: nat -> Outcome, retries: int, s: State, t: State, n: nat, ok: bool) {
    && Sends(server, retries, s.wire, t.wire, s.buf, n)
    && (n == 0 <==> s.pending == [])
    && if n == 0 then ok && t == s
       else
         var last := LastAnswer(server, s.wire, n);
         && ok == Settles(last)
         && t == if ok then State([], [], t.wire, s.batches + [Batch(s.pending, IsAck(last))],
                                  s.settledBy + [|s.wire| + n - 1], s.failed)
                 else s.(wire := t.wire, failed := true)
  }

  // Some POST from the first-th on is longer than the cap.
  ghost predicate PassesCap(wire: seq<Post>, first: nat, cap: int) {
    exists i :: first <= i < |wire| && |wire[i].payload| > cap
  }

  lemma FlushOnlyAdds(server: nat -> Outcome, retries: int, s: State, t: State, n: nat, ok: bool)
    requires Flushes(server, retries, s, t, n, ok)
    ensures s.wire <= t.wire && |t.buf| <= |s.buf|
  {
  }

  // A flush that sends fails exactly if the last answer is none of 2xx, 401 and 403, and it leaves nothing pending
  // exactly if it does not fail.
  lemma FlushEnds(server: nat -> Outcome, retries: int, s: State, t: State, n: nat, ok: bool)
    requires Flushes(server, retries, s, t, n, ok) && s.pending != []
    ensures n > 0 && |t.wire| > 0
    ensures var o := t.wire[|t.wire| - 1].outcome;
            ok <==> o.Response? && (200 <= o.status < 300 || o.status in {401, 403})
    ensures ok <==> t.pending == []
  {
  }

  lemma NothingSent(wire: seq<Post>, cap: int)
    ensures !PassesCap(wire, |wire|, cap)
  {
  }

  lemma SomethingSent(server: nat -> Outcome, retries: int, s: State, t: State, n: nat, ok: bool)
    requires Flushes(server, retries, s, t, n, ok) && s.pending != []
    ensures n > 0
  {
  }

  // A flush sends something longer than the cap exactly if there is something pending and the buffer is.
  lemma FlushPassesCapIff(server: nat -> Outcome, retries: int, s: State, t: State, n: nat, ok: bool, cap: int)
    requires Flushes(server, retries, s, t, n, ok)
    ensures PassesCap(t.wire, |s.wire|, cap) <==> s.pending != [] && |s.buf| > cap
  {
    if n > 0 {
      assert t.wire[|s.wire|] == Post(s.buf, Answer(server, |s.wire|));
    }
  }

  // A record as WriteRecord met it: it found before in the buffer, the encodings of the records from the
  // lo-th on.
  datatype Offer = Offer(lo: nat, before: bytes, record: Record)

  ghost predicate OffersOk(encode: Record -> bytes, given: seq<Record>, offers: seq<Offer>) {
    && |offers| == |given|
    && forall k :: 0 <= k < |offers| ==> OfferOk(encode, given, offers[k], k)
  }

  ghost predicate OfferOk(encode: Record -> bytes, given: seq<Record>, o: Offer, k: nat) {
    k < |given| && o.record == given[k] && o.lo <= k && o.before == EncodeAll(encode, given[o.lo..k])
  }

  lemma OffersGrow(encode: Record -> bytes, given: seq<Record>, offers: seq<Offer>, lo: nat, r: Record)
    requires OffersOk(encode, given, offers) && lo <= |given|
    ensures OffersOk(encode, given + [r], offers + [Offer(lo, EncodeAll(encode, given[lo..]), r)])
  {
    var all, more := given + [r], offers + [Offer(lo, EncodeAll(encode, given[lo..]), r)];
    forall k | 0 <= k < |more| ensures OfferOk(encode, all, more[k], k) {
      if k < |offers| {
        assert OfferOk(encode, given, offers[k], k);
        assert all[offers[k].lo..k] == given[offers[k].lo..k];
      } else {
        assert all[lo..k] == given[lo..];
      }
    }
  }

  class HTTPSink {
    const encode: Record -> bytes
    const cfg: Config
    const server: nat -> Outcome  // the answer to the n-th POST
    var buf: bytes
    var records: nat
    var wire: seq<Post>
    var warnings: nat

    ghost var given: seq<Record>     // every record WriteRecord was called with
    ghost var offers: seq<Offer>     // the same with what was in the buffer then
    ghost var batches: seq<Batch>
    ghost var pending: seq<Record>
    ghost var spans: seq<Span>       // what each POST carried
    ghost var settledBy: seq<nat>    // the POST that settled each batch
    ghost var failed: bool           // some Flush returned an error

    // Every record given is in exactly one settled batch or still pending, in order; the buffer encodes
    // the pending ones; each POST carried a stretch of the records, and each batch was settled by one of
    // them, which was acknowledged or denied.
    ghost predicate Conserved()
      reads this
    {
      && given == RecordsOf(batches) + pending
      && buf == EncodeAll(encode, pending)
      && records == |pending|
      && OffersOk(encode, given, offers)
      && WireOk(encode, server, given, wire, spans)
      && SettlementsOk(encode, wire, batches, settledBy)
      && EagerOk(encode, cfg, given, spans)
    }

    // As long as no flush failed, what is pending stays under both limits and so did every POST.
    ghost predicate Bounded()
      reads this
    {
      !failed ==>
        && records < cfg.batchRecords && |buf| < cfg.batchBytes
        && LimitsOk(encode, cfg, given, spans)
    }

    ghost predicate ConfigOk() {
      cfg.batchRecords > 0 && cfg.batchBytes > 0 && cfg.retries >= 0
    }

    ghost predicate Valid()
      reads this
    {
      ConfigOk() && Conserved() && Bounded()
    }

    constructor (encode: Record -> bytes, cfg: Config, server: nat -> Outcome)
      requires cfg.batchRecords > 0 && cfg.retries >= 0
      ensures Valid() && given == [] && batches == [] && wire == [] && !failed
      ensures this.cfg == cfg.(batchBytes := if cfg.batchBytes <= 0 then DEFAULT_BATCH_BYTES else cfg.batchBytes)
      ensures this.encode == encode && this.server == server
    {
      this.encode, this.server := encode, server;
      this.cfg := cfg.(batchBytes := if cfg.batchBytes <= 0 then DEFAULT_BATCH_BYTES else cfg.batchBytes);
      buf, records, wire, warnings := [], 0, [], 0;
      given, offers, batches, pending, spans, settledBy, failed := [], [], [], [], [], [], false;
    }

    method SendOnce(payload: bytes) returns (o: Outcome)
      modifies this`wire
      ensures o == Answer(server, |old(wire)|) && wire == old(wire) + [Post(payload, o)]
    {
      o := Answer(server, |wire|);
      wire := wire + [Post(payload, o)];
    }

    // The retry loop: the same payload until a 2xx or until the attempts are used up. n is the number of
    // attempts and last the outcome of the final one.
    method Attempts(payload: bytes) returns (n: nat, last: Outcome)
      requires cfg.retries >= 0
      modifies this`wire
      ensures n > 0 && Sends(server, cfg.retries, old(wire), wire, payload, n)
      ensures last == LastAnswer(server, old(wire), n)
    {
      last := SendOnce(payload);
      n := 1;
      assert wire == old(wire) + Posts(server, payload, |old(wire)|, 1);
      while !IsAck(last) && n <= cfg.retries
        invariant 0 < n <= cfg.retries + 1 && wire == old(wire) + Posts(server, payload, |old(wire)|, n)
        invariant forall i :: |old(wire)| <= i < |old(wire)| + n - 1 ==> !IsAck(Answer(server, i))
        invariant last == Answer(server, |old(wire)| + n - 1)
      {
        PostsSnoc(server, old(wire), payload, |old(wire)|, n);
        last := SendOnce(payload);
        n := n + 1;
      }
    }

    ghost function View(): State
      reads this
    {
      State(buf, pending, wire, batches, settledBy, failed)
    }

    // Just after the record that reached a limit was added, or at any other time.
    ghost predicate ReadyToFlush()
      reads this
    {
      && ConfigOk() && Conserved()
      && (!failed ==> (pending == [] || WithinLimits(encode, cfg, pending)) && LimitsOk(encode, cfg, given, spans))
    }

    lemma ValidIsReady()
      requires Valid()
      ensures ReadyToFlush()
    {
      if pending != [] {
        var n := |pending| - 1;
        EncodeAllSnoc(encode, pending[..n], pending[n]);
        assert pending[..n] + [pending[n]] == pending;
      }
    }

    // The retry loop on the buffer: each POST carries the pending records.
    method Deliver(ghost asked: bool) returns (n: nat, last: Outcome)
      requires ReadyToFlush() && pending != [] && (asked || IsFull(encode, cfg, pending))
      modifies this`wire, this`spans
      ensures n > 0 && Sends(server, cfg.retries, old(wire), wire, buf, n)
      ensures last == LastAnswer(server, old(wire), n)
      ensures WireOk(encode, server, given, wire, spans)
      ensures !failed ==> LimitsOk(encode, cfg, given, spans)
      ensures EagerOk(encode, cfg, given, spans) && old(spans) <= spans
      ensures forall i :: |old(spans)| <= i < |spans| ==> spans[i].asked == asked
    {
      hide OffersOk, WireOk, SettlementsOk, EncodeAll, RecordsOf, WithinLimits, IsFull;
      n, last := Attempts(buf);
      ghost var s := Span(|given| - |pending|, |given|, asked);
      assert given[s.lo..s.hi] == pending;
      WireGrows(encode, server, given, old(wire), spans, s, n);
      spans := spans + seq(n, _ => s);
    }

    // What the outcome of the final attempt means for the batch: 2xx or an auth denial lets it go.
    method Conclude(last: Outcome) returns (ok: bool)
      modifies this`buf, this`records, this`warnings, this`failed
      ensures ok == Settles(last)
      ensures ok ==> buf == [] && records == 0 && failed == old(failed)
      ensures !ok ==> failed && buf == old(buf) && records == old(records)
      ensures warnings == old(warnings) + if IsAuthDenial(last) then 1 else 0
    {
      if IsAck(last) {
        buf, records := [], 0;
        return true;
      }
      if IsAuthDenial(last) {
        warnings := warnings + 1;
        buf, records := [], 0;
        return true;
      }
      failed := true;
      return false;
    }

    method FlushPending(ghost asked: bool) returns (ok: bool, ghost n: nat)
      requires ReadyToFlush() && pending != [] && (asked || IsFull(encode, cfg, pending))
      modifies this`buf, this`records, this`wire, this`warnings, this`batches, this`pending, this`failed, this`spans, this`settledBy
      ensures Valid() && given == old(given) && Flushes(server, cfg.retries, old(View()), View(), n, ok)
      ensures old(spans) <= spans && forall i :: |old(spans)| <= i < |spans| ==> spans[i].asked == asked
    {
      hide OffersOk, WireOk, SettlementsOk, EncodeAll, RecordsOf, LimitsOk, EagerOk, IsFull, WithinLimits, Sends, IsAck,
           IsAuthDenial, Settles;
      var attempts, last := Deliver(asked);
      n := attempts;
      FlushSettles(encode, server, cfg.retries, old(wire), wire, batches, settledBy, pending, n);
      ok := Conclude(last);
      if ok {
        Retire(IsAck(last), |old(wire)| + n - 1);
      } else {
        Kept();
      }
    }

    // n: the number of POSTs made. asked: WriteRecord is not the caller.
    method Flush(ghost asked: bool) returns (ok: bool, ghost n: nat)
      requires ReadyToFlush() && (asked || IsFull(encode, cfg, pending))
      modifies this`buf, this`records, this`wire, this`warnings, this`batches, this`pending, this`failed, this`spans, this`settledBy
      ensures Valid() && Flushes(server, cfg.retries, old(View()), View(), n, ok)
      ensures given == old(given) && old(wire) <= wire && |buf| <= |old(buf)|
      ensures old(spans) <= spans && forall i :: |old(spans)| <= i < |spans| ==> spans[i].asked == asked
      ensures PassesCap(wire, |old(wire)|, cfg.batchBytes) <==> old(records) > 0 && |old(buf)| > cfg.batchBytes
    {
      if records == 0 {
        NoPosts(server, cfg.retries, wire, buf);
        NothingSent(wire, cfg.batchBytes);
        return true, 0;
      }
      assert pending != [];
      hide Flushes, PassesCap, Valid, ReadyToFlush;
      ok, n := FlushPending(asked);
      FlushOnlyAdds(server, cfg.retries, old(View()), View(), n, ok);
      FlushPassesCapIff(server, cfg.retries, old(View()), View(), n, ok, cfg.batchBytes);
    }

    // The pending records leave as a batch settled by the at-th POST.
    ghost method Retire(acked: bool, at: nat)
      requires ConfigOk() && given == RecordsOf(batches) + pending && buf == [] && records == 0
      requires WireOk(encode, server, given, wire, spans) && (!failed ==> LimitsOk(encode, cfg, given, spans))
      requires SettlementsOk(encode, wire, batches + [Batch(pending, acked)], settledBy + [at]) && OffersOk(encode, given, offers)
      requires EagerOk(encode, cfg, given, spans)
      modifies this`batches, this`pending, this`settledBy
      ensures Valid() && pending == []
      ensures batches == old(batches) + [Batch(old(pending), acked)] && settledBy == old(settledBy) + [at]
    {
      hide OffersOk, WireOk, SettlementsOk, EncodeAll, RecordsOf, LimitsOk, EagerOk;
      NothingPending(encode, given, batches, Batch(pending, acked));
      batches, settledBy := batches + [Batch(pending, acked)], settledBy + [at];
      pending := [];
    }

    lemma Kept()
      requires ConfigOk() && given == RecordsOf(batches) + pending && buf == EncodeAll(encode, pending) && records == |pending|
      requires WireOk(encode, server, given, wire, spans) && SettlementsOk(encode, wire, batches, settledBy) && failed
      requires OffersOk(encode, given, offers) && EagerOk(encode, cfg, given, spans)
      ensures Valid()
    {
    }

    // The record joins the buffer.
    method Add(record: Record)
      requires Valid()
      modifies this`buf, this`records, this`pending, this`given, this`offers
      ensures ReadyToFlush() && pending == old(pending) + [record] && given == old(given) + [record]
      ensures buf == old(buf) + Encoding(encode, record) && records == old(records) + 1
      ensures offers == old(offers) + [Offer(|old(given)| - |old(pending)|, old(buf), record)]
      ensures records < cfg.batchRecords && |buf| < cfg.batchBytes ==> Valid()
    {
      hide OffersOk, WireOk, SettlementsOk, EncodeAll, RecordsOf, LimitsOk, WithinLimits, EagerOk;
      ghost var lo, before := |given| - |pending|, buf;
      PendingIsTail(given, RecordsOf(batches), pending, record);
      OffersGrow(encode, given, offers, lo, record);
      EncodeAllSnoc(encode, pending, record);
      WireKeepsOnGiven(encode, server, given, wire, spans, record);
      EagerKeepsOnGiven(encode, cfg, given, spans, record);
      if !failed {
        LimitsKeepOnGiven(encode, cfg, given, spans, record);
        OneMoreIsWithinLimits(encode, cfg, pending, record);
      }
      buf := buf + Encoding(encode, record);
      records := records + 1;
      pending := pending + [record];
      given, offers := given + [record], offers + [Offer(lo, before, record)];
    }

    // It sends exactly when BatchRecords records are pending or BatchBytes bytes in the buffer, and then the whole
    // buffer with the record; until then the record is pending. n: the number of POSTs made.
    method WriteRecord(record: Record) returns (ok: bool, ghost n: nat)
      requires Valid()
      modifies this
      ensures Valid() && given == old(given) + [record]
      ensures offers == old(offers) + [Offer(|old(given)| - |old(pending)|, old(buf), record)]
      ensures n > 0 <==> |old(pending)| + 1 >= cfg.batchRecords || |old(buf)| + |Encoding(encode, record)| >= cfg.batchBytes
      ensures var added := old(View()).(buf := old(buf) + Encoding(encode, record), pending := old(pending) + [record]);
              if n > 0 then Flushes(server, cfg.retries, added, View(), n, ok) else ok && View() == added
      ensures old(spans) <= spans && forall i :: |old(spans)| <= i < |spans| ==> !spans[i].asked
      // BatchBytes is passed exactly if the record does not fit what the buffer leaves of it
      ensures PassesCap(wire, |old(wire)|, cfg.batchBytes) <==> |old(buf)| + |Encoding(encode, record)| > cfg.batchBytes
      ensures old(wire) <= wire && |buf| <= |old(buf)| + |Encoding(encode, record)|
    {
      hide OffersOk, WireOk, SettlementsOk, EncodeAll, RecordsOf, LimitsOk, WithinLimits, Flushes, PassesCap, EagerOk;
      Add(record);
      ok, n := true, 0;
      if records >= cfg.batchRecords || |buf| >= cfg.batchBytes {
        ghost var added := View();
        ok, n := Flush(false);
        SomethingSent(server, cfg.retries, added, View(), n, ok);
      } else {
        NothingSent(wire, cfg.batchBytes);
      }
    }

    method Close() returns (ok: bool, ghost n: nat)
      requires Valid()
      modifies this`buf, this`records, this`wire, this`warnings, this`batches, this`pending, this`failed, this`spans, this`settledBy
      ensures Valid() && given == old(given)
      ensures Flushes(server, cfg.retries, old(View()), View(), n, ok)
      ensures ok ==> given == RecordsOf(batches)
      ensures old(spans) <= spans && forall i :: |old(spans)| <= i < |spans| ==> spans[i].asked
    {
      ValidIsReady();
      hide Flushes, PassesCap, Valid, ReadyToFlush;
      ok, n := Flush(true);
      if ok {
        FlushLeavesNothing(server, cfg.retries, old(View()), View(), n);
        NothingLeft();
      }
    }

    lemma NothingLeft()
      requires Valid() && pending == []
      ensures given == RecordsOf(batches)
    {
      hide RecordsOf;
      AllSettled(given, batches, pending);
    }
  }

  lemma FlushLeavesNothing(server: nat -> Outcome, retries: int, s: State, t: State, n: nat)
    requires Flushes(server, retries, s, t, n, true)
    ensures t.pending == []
  {
  }

  lemma PendingIsTail(given: seq<Record>, settled: seq<Record>, pending: seq<Record>, r: Record)
    requires given == settled + pending
    ensures given[|given| - |pending|..] == pending && given + [r] == settled + (pending + [r])
  {
  }

  lemma OneMoreIsWithinLimits(encode: Record -> bytes, cfg: Config, rs: seq<Record>, r: Record)
    requires |rs| < cfg.batchRecords && |EncodeAll(encode, rs)| < cfg.batchBytes
    ensures WithinLimits(encode, cfg, rs + [r])
  {
    assert (rs + [r])[..|rs|] == rs;
  }

  lemma NoPosts(server: nat -> Outcome, retries: int, wire: seq<Post>, payload: bytes)
    requires retries >= 0
    ensures Sends(server, retries, wire, wire, payload, 0)
  {
    assert wire + Posts(server, payload, |wire|, 0) == wire;
  }

  lemma NothingPending(encode: Record -> bytes, given: seq<Record>, batches: seq<Batch>, b: Batch)
    requires given == RecordsOf(batches) + b.records
    ensures given == RecordsOf(batches + [b]) + [] && EncodeAll(encode, []) == []
  {
    RecordsSnoc(batches, b);
  }

  lemma AllSettled(given: seq<Record>, batches: seq<Batch>, pending: seq<Record>)
    requires given == RecordsOf(batches) + pending && pending == []
    ensures given == RecordsOf(batches)
  {
  }
}
