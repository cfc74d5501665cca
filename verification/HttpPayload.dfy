/** What the POSTs of sink_http.go contain when records are encoded as http_encoder.go encodes them. */
module HttpPayload {
  import opened LogRecords
  import opened HttpSink
  import J = JsonString
  import D = JsonDecode

  // A user record as JSONLineHTTPEncoder and GELFHTTPEncoder write it: fixed fields and metadata around
  // the escaped line, closed by LF.
  ghost predicate EncodesLine(e: bytes, line: bytes, overhead: nat) {
    exists head, tail :: IsEncoding(e, head, line, tail) && |head| + |tail| + 1 <= overhead
  }

  ghost predicate IsEncoding(e: bytes, head: bytes, line: bytes, tail: bytes) {
    LF !in head && LF !in tail && e == head + J.Quoted(line) + tail + [LF]
  }

  // One text line: an LF at the end and nowhere else.
  predicate IsLine(e: bytes) {
    e != [] && e[|e| - 1] == LF && LF !in e[..|e| - 1]
  }

  // Whatever bytes the record's line holds, its encoding is one line and at most six times as long plus
  // the fixed part.
  lemma EncodingIsOneLine(e: bytes, line: bytes, overhead: nat)
    requires EncodesLine(e, line, overhead)
    ensures IsLine(e)
    ensures |e| <= 6 * |line| + 2 + overhead
  {
    var head, tail :| IsEncoding(e, head, line, tail) && |head| + |tail| + 1 <= overhead;
    D.QuotedShape(line);
    assert e[..|e| - 1] == head + J.Quoted(line) + tail;
  }

  // Splitting a payload at LF.
  function Lines(p: bytes): seq<bytes> {
    if p == [] then []
    else
      var ls := Lines(p[..|p| - 1]);
      var b := p[|p| - 1];
      if |p| == 1 || p[|p| - 2] == LF then ls + [[b]]
      else if ls == [] then [[b]]
      else ls[..|ls| - 1] + [ls[|ls| - 1] + [b]]
  }

  function Encodings(encode: Record -> bytes, rs: seq<Record>): (es: seq<bytes>)
    ensures |es| == |rs| && forall i :: 0 <= i < |rs| ==> es[i] == encode(rs[i])
  {
    seq(|rs|, i requires 0 <= i < |rs| => encode(rs[i]))
  }

  lemma LinesSnoc(p: bytes, b: byte)
    ensures Lines(p + [b]) ==
            if p == [] || p[|p| - 1] == LF then Lines(p) + [[b]]
            else if Lines(p) == [] then [[b]]
            else Lines(p)[..|Lines(p)| - 1] + [Lines(p)[|Lines(p)| - 1] + [b]]
  {
    assert (p + [b])[..|p|] == p;
  }

  // A stretch of a line after a complete payload opens or extends one new last line.
  lemma {:induction false} LinesAppend(p: bytes, e: bytes)
    requires p == [] || p[|p| - 1] == LF
    requires e != [] && LF !in e[..|e| - 1]
    ensures Lines(p + e) == Lines(p) + [e]
  {
    hide Lines;
    var n := |e| - 1;
    var init := e[..n];
    assert e == init + [e[n]];
    if n == 0 {
      assert init == [] && p + e == p + [e[0]];
      LinesSnoc(p, e[0]);
    } else {
      assert init[..n - 1] == e[..n - 1] && init[n - 1] in init;
      LinesAppend(p, init);
      assert p + e == (p + init) + [e[n]];
      LinesSnoc(p + init, e[n]);
    }
  }

  lemma EncodingsSnoc(encode: Record -> bytes, rs: seq<Record>, r: Record)
    ensures Encodings(encode, rs + [r]) == Encodings(encode, rs) + [encode(r)]
  {
  }

  lemma {:induction false} PayloadEndsLine(encode: Record -> bytes, rs: seq<Record>)
    requires forall r :: r in rs ==> IsLine(encode(r))
    ensures var p := EncodeAll(encode, rs); p == [] || p[|p| - 1] == LF
  {
    if rs != [] {
      assert rs[|rs| - 1] in rs;
    }
  }

  // One more record at the end of a batch.
  lemma PayloadGrows(encode: Record -> bytes, init: seq<Record>, r: Record)
    requires Lines(EncodeAll(encode, init)) == Encodings(encode, init) && IsLine(encode(r))
    requires var p := EncodeAll(encode, init); p == [] || p[|p| - 1] == LF
    ensures Lines(EncodeAll(encode, init + [r])) == Encodings(encode, init + [r])
  {
    hide Lines, EncodeAll, Encodings;
    LinesAppend(EncodeAll(encode, init), encode(r));
    EncodeAllSnoc(encode, init, r);
    EncodingsSnoc(encode, init, r);
  }

  // The receiver splits a payload back into exactly the encodings of the batch, in order.
  lemma {:induction false} PayloadSplitsIntoRecords(encode: Record -> bytes, rs: seq<Record>)
    requires forall r :: r in rs ==> IsLine(encode(r))
    ensures Lines(EncodeAll(encode, rs)) == Encodings(encode, rs)
  {
    if rs != [] {
      hide Lines, EncodeAll, Encodings, IsLine;
      var init, r := rs[..|rs| - 1], rs[|rs| - 1];
      assert r in rs && forall x :: x in init ==> x in rs;
      PayloadSplitsIntoRecords(encode, init);
      PayloadEndsLine(encode, init);
      PayloadGrows(encode, init, r);
      assert rs == init + [r];
    }
  }

  // A record given to the sink: a user record within the framer's limit and the encoder's overhead, or a
  // diagnostic whose encoding is short.
  ghost predicate IsBounded(encode: Record -> bytes, r: Record, maxFragmentBytes: nat, overhead: nat) {
    if r.end == Internal then |encode(r)| <= overhead
    else |r.line| <= maxFragmentBytes && EncodesLine(encode(r), r.line, overhead)
  }

  // While no flush has failed: every POST carries a stretch of the records given, at most BatchRecords of
  // them. If all records given have bounded lines and metadata, its payload exceeds BatchBytes by less than
  // one encoded record.
  lemma PayloadBound(sink: HTTPSink, i: nat, maxFragmentBytes: nat, overhead: nat)
    requires sink.Valid() && !sink.failed && i < |sink.wire|
    requires forall r :: r in sink.given ==> IsBounded(sink.encode, r, maxFragmentBytes, overhead)
    ensures exists lo, hi ::
              && 0 <= lo < hi <= |sink.given| && hi - lo <= sink.cfg.batchRecords
              && sink.wire[i].payload == EncodeAll(sink.encode, sink.given[lo..hi])
    ensures |sink.wire[i].payload| < sink.cfg.batchBytes + 6 * maxFragmentBytes + 2 + overhead
  {
    var s := sink.spans[i];
    var rs := sink.given[s.lo..s.hi];
    assert Carries(sink.encode, sink.given, sink.wire[i], s) && WithinLimits(sink.encode, sink.cfg, rs);
    var last := rs[|rs| - 1];
    assert last == sink.given[s.hi - 1] && IsBounded(sink.encode, last, maxFragmentBytes, overhead);
    if last.end != Internal {
      EncodingIsOneLine(sink.encode(last), last.line, overhead);
    }
  }

  // What happened to the k-th record given: it is pending, or it is the m-th record of the j-th batch, and
  // that batch was carried by a POST that was acknowledged with a 2xx or denied with 401 or 403. No record
  // leaves the sink otherwise.
  lemma EveryRecordIsAccounted(sink: HTTPSink, k: nat) returns (j: nat, m: nat)
    requires sink.Valid() && k < |sink.given|
    ensures if k >= |sink.given| - |sink.pending| then sink.given[k] == sink.pending[k - (|sink.given| - |sink.pending|)]
            else
              && j < |sink.batches| && m < |sink.batches[j].records|
              && k == |RecordsOf(sink.batches[..j])| + m && sink.given[k] == sink.batches[j].records[m]
              && sink.settledBy[j] < |sink.wire|
              && SettledBy(sink.encode, sink.batches[j], sink.wire[sink.settledBy[j]])
              && var o := sink.wire[sink.settledBy[j]].outcome;
                 o.Response? && if sink.batches[j].acked then 200 <= o.status < 300 else o.status in {401, 403}
  {
    j, m := 0, 0;
    if k < |sink.given| - |sink.pending| {
      j, m := BatchOf(sink.batches, k);
      SettledAt(sink.encode, sink.wire, sink.batches, sink.settledBy, j);
    }
    hide RecordsOf, EncodeAll, WireOk, SettlementsOk, OffersOk, LimitsOk, SettledBy;
  }

  lemma SettledAt(encode: Record -> bytes, wire: seq<Post>, batches: seq<Batch>, at: seq<nat>, j: nat)
    requires SettlementsOk(encode, wire, batches, at) && j < |batches|
    ensures at[j] < |wire| && SettledBy(encode, batches[j], wire[at[j]])
    ensures var o := wire[at[j]].outcome;
            o.Response? && if batches[j].acked then 200 <= o.status < 300 else o.status in {401, 403}
  {
  }

  lemma {:induction false} BatchOf(bs: seq<Batch>, k: nat) returns (j: nat, m: nat)
    requires k < |RecordsOf(bs)|
    ensures j < |bs| && m < |bs[j].records|
    ensures k == |RecordsOf(bs[..j])| + m && RecordsOf(bs)[k] == bs[j].records[m]
  {
    var n := |bs| - 1;
    assert RecordsOf([]) == [];
    assert bs == bs[..n] + [bs[n]];
    RecordsSnoc(bs[..n], bs[n]);
    hide RecordsOf;
    if k < |RecordsOf(bs[..n])| {
      j, m := BatchOf(bs[..n], k);
      assert bs[..n][..j] == bs[..j];
    } else {
      j, m := n, k - |RecordsOf(bs[..n])|;
    }
  }

  // The user manual calls BatchBytes a cap on the payload. It is not one: the first record written to a new
  // sink goes out whole, however long its encoding is.
  method LongRecordPassesTheCap(encode: Record -> bytes, cfg: Config, server: nat -> Outcome, r: Record) returns (sink: HTTPSink)
    requires 0 < cfg.batchRecords && cfg.retries >= 0 && 0 < cfg.batchBytes < |encode(r)|
    ensures fresh(sink) && sink.Valid() && sink.cfg == cfg && sink.encode == encode && sink.given == [r]
    ensures |sink.wire| > 0 && sink.wire[0] == Post(encode(r), server(0)) && |sink.wire[0].payload| > sink.cfg.batchBytes
  {
    sink := new HTTPSink(encode, cfg, server);
    var ok;
    ghost var n;
    ok, n := sink.WriteRecord(r);
  }

  datatype Call = Write(record: Record) | Flush

  function Written(calls: seq<Call>): seq<Record> {
    if calls == [] then []
    else Written(calls[..|calls| - 1]) + if calls[|calls| - 1].Write? then [calls[|calls| - 1].record] else []
  }

  // The record did not fit what the buffer left of the cap.
  predicate Overflows(encode: Record -> bytes, o: Offer, cap: int) {
    |o.before| + |Encoding(encode, o.record)| > cap
  }

  ghost predicate SomeOverflows(encode: Record -> bytes, offers: seq<Offer>, cap: int) {
    exists k :: 0 <= k < |offers| && Overflows(encode, offers[k], cap)
  }

  lemma SomeOverflowsSnoc(encode: Record -> bytes, offers: seq<Offer>, o: Offer, cap: int)
    ensures SomeOverflows(encode, offers + [o], cap) <==> SomeOverflows(encode, offers, cap) || Overflows(encode, o, cap)
  {
    var all := offers + [o];
    if k :| 0 <= k < |offers| && Overflows(encode, offers[k], cap) {
      assert Overflows(encode, all[k], cap);
    }
    if Overflows(encode, o, cap) {
      assert Overflows(encode, all[|offers|], cap);
    }
  }

  // Over the calls so far, some POST passes the cap if and only if some record did not fit.
  ghost predicate InStep(sink: HTTPSink)
    reads sink
  {
    && sink.Valid()
    && (PassesCap(sink.wire, 0, sink.cfg.batchBytes) <==> SomeOverflows(sink.encode, sink.offers, sink.cfg.batchBytes))
    && (|sink.buf| > sink.cfg.batchBytes ==> PassesCap(sink.wire, 0, sink.cfg.batchBytes))
  }

  method Do(sink: HTTPSink, call: Call)
    requires InStep(sink)
    modifies sink
    ensures InStep(sink)
    ensures sink.given == old(sink.given) + if call.Write? then [call.record] else []
  {
    hide HTTPSink.Valid, PassesCap, SomeOverflows, Flushes;
    var ok;
    ghost var n;
    match call {
      case Write(r) =>
        ok, n := sink.WriteRecord(r);
        SomeOverflowsSnoc(sink.encode, old(sink.offers), sink.offers[|old(sink.offers)|], sink.cfg.batchBytes);
      case Flush =>
        sink.ValidIsReady();
        ok, n := sink.Flush(true);
        assert sink.given + [] == sink.given;
    }
    PassesCapSplit(old(sink.wire), sink.wire, sink.cfg.batchBytes);
  }

  lemma PassesCapSplit(before: seq<Post>, after: seq<Post>, cap: int)
    requires before <= after
    ensures PassesCap(after, 0, cap) <==> PassesCap(before, 0, cap) || PassesCap(after, |before|, cap)
  {
    if PassesCap(before, 0, cap) {
      var i :| 0 <= i < |before| && |before[i].payload| > cap;
      assert after[i] == before[i];
    }
    if i :| 0 <= i < |after| && |after[i].payload| > cap {
      assert i < |before| ==> after[i] == before[i];
    }
  }

  // Exactly: in any run of a new sink some POST passes the cap if and only if some record written did not fit
  // what the buffer left of it at that moment; the buffer held the encodings of the records just before it.
  method PassesTheCapIff(encode: Record -> bytes, cfg: Config, server: nat -> Outcome, calls: seq<Call>)
    returns (sink: HTTPSink)
    requires 0 < cfg.batchRecords && cfg.retries >= 0 && 0 < cfg.batchBytes
    ensures fresh(sink) && sink.Valid() && sink.cfg == cfg && sink.encode == encode && sink.given == Written(calls)
    ensures OffersOk(encode, sink.given, sink.offers)
    ensures PassesCap(sink.wire, 0, cfg.batchBytes) <==>
            exists k :: 0 <= k < |sink.offers| && |sink.offers[k].before| + |Encoding(encode, sink.offers[k].record)| > cfg.batchBytes
  {
    sink := new HTTPSink(encode, cfg, server);
    for i := 0 to |calls|
      invariant InStep(sink) && fresh(sink) && sink.cfg == cfg && sink.encode == encode
      invariant sink.given == Written(calls[..i])
    {
      assert calls[..i + 1][..i] == calls[..i];
      Do(sink, calls[i]);
    }
    assert calls[..|calls|] == calls;
    assert SomeOverflows(encode, sink.offers, cfg.batchBytes) <==>
           exists k :: 0 <= k < |sink.offers| && |sink.offers[k].before| + |Encoding(encode, sink.offers[k].record)| > cfg.batchBytes;
  }

  // Batching, in every state: a POST that no Flush or Close asked for carries at least BatchRecords records or at
  // least BatchBytes bytes; while no flush has failed, exactly BatchRecords or at least BatchBytes.
  lemma UnaskedPostsAreFull(sink: HTTPSink, i: nat)
    requires sink.Valid() && i < |sink.wire| && !sink.spans[i].asked
    ensures var n := sink.spans[i].hi - sink.spans[i].lo;
            && sink.spans[i].lo <= sink.spans[i].hi <= |sink.given|
            && sink.wire[i].payload == EncodeAll(sink.encode, sink.given[sink.spans[i].lo..sink.spans[i].hi])
            && (n >= sink.cfg.batchRecords || |sink.wire[i].payload| >= sink.cfg.batchBytes)
            && (!sink.failed ==> n == sink.cfg.batchRecords || |sink.wire[i].payload| >= sink.cfg.batchBytes)
  {
    hide OffersOk, SettlementsOk, RecordsOf, EncodeAll;
    assert Carries(sink.encode, sink.given, sink.wire[i], sink.spans[i]);
  }

  // One record, and no more asked for than before.
  method WriteOne(sink: HTTPSink, r: Record)
    requires sink.Valid() && NoneAsked(sink.spans)
    modifies sink
    ensures sink.Valid() && NoneAsked(sink.spans) && sink.given == old(sink.given) + [r]
  {
    hide HTTPSink.Valid, Flushes, PassesCap;
    var ok;
    ghost var n;
    ok, n := sink.WriteRecord(r);
  }

  ghost predicate NoneAsked(spans: seq<Span>) {
    forall i :: 0 <= i < |spans| ==> !spans[i].asked
  }

  // So a new sink that is only written to sends nothing less, and holds back less than that.
  method WritesSendFullBatches(encode: Record -> bytes, cfg: Config, server: nat -> Outcome, rs: seq<Record>)
    returns (sink: HTTPSink)
    requires 0 < cfg.batchRecords && cfg.retries >= 0 && 0 < cfg.batchBytes
    ensures fresh(sink) && sink.Valid() && sink.cfg == cfg && sink.encode == encode && sink.given == rs
    ensures |sink.spans| == |sink.wire| && forall i :: 0 <= i < |sink.wire| ==> AtLeast(sink, sink.spans[i], sink.wire[i])
    ensures !sink.failed ==> |sink.pending| < cfg.batchRecords && |sink.buf| < cfg.batchBytes
  {
    sink := new HTTPSink(encode, cfg, server);
    NothingWritten(sink);
    hide *;
    for i := 0 to |rs|
      invariant fresh(sink) && sink.Valid() && sink.cfg == cfg && sink.encode == encode && sink.given == rs[..i]
      invariant NoneAsked(sink.spans)
    {
      assert rs[..i + 1] == rs[..i] + [rs[i]];
      WriteOne(sink, rs[i]);
    }
    assert rs[..|rs|] == rs;
    AllAtLeast(sink);
  }

  lemma NothingWritten(sink: HTTPSink)
    requires sink.Valid() && sink.wire == []
    ensures NoneAsked(sink.spans)
  {
  }

  lemma AllAtLeast(sink: HTTPSink)
    requires sink.Valid() && NoneAsked(sink.spans)
    ensures |sink.spans| == |sink.wire| && forall i :: 0 <= i < |sink.wire| ==> AtLeast(sink, sink.spans[i], sink.wire[i])
    ensures !sink.failed ==> |sink.pending| < sink.cfg.batchRecords && |sink.buf| < sink.cfg.batchBytes
  {
    AsManySpans(sink);
    hide HTTPSink.Valid, EncodeAll;
    forall i | 0 <= i < |sink.wire| ensures AtLeast(sink, sink.spans[i], sink.wire[i]) {
      UnaskedPostsAreFull(sink, i);
    }
  }

  // The POST carried that stretch, and it is enough to be sent.
  ghost predicate AtLeast(sink: HTTPSink, s: Span, p: Post)
    reads sink
  {
    && s.lo <= s.hi <= |sink.given| && p.payload == EncodeAll(sink.encode, sink.given[s.lo..s.hi])
    && (s.hi - s.lo >= sink.cfg.batchRecords || |p.payload| >= sink.cfg.batchBytes)
  }

  lemma AsManySpans(sink: HTTPSink)
    requires sink.Valid()
    ensures |sink.spans| == |sink.wire|
    ensures !sink.failed ==> |sink.pending| < sink.cfg.batchRecords && |sink.buf| < sink.cfg.batchBytes
  {
  }
}
