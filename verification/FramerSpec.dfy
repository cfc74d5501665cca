/**
 What the framer (framer.go) makes of a byte stream, defined one byte at a time and without any notion of
 chunks. The implementation, which works chunk by chunk on a shared buffer, is proved against this.
 */
module FramerSpec {
  import opened LogRecords

  // One Push call: the line, how it ended, and whether it continues the record before it.
  datatype Fragment = Fragment(line: bytes, end: RecordEnd, continued: bool)

  datatype State = State(buf: bytes, continued: bool, out: seq<Fragment>)

  const START: State := State([], false, [])

  function TrimCR(line: bytes): bytes {
    if line != [] && line[|line| - 1] == CR then line[..|line| - 1] else line
  }

  function Emit(s: State, end: RecordEnd, line: bytes): State {
    s.(out := s.out + [Fragment(line, end, s.continued)])
  }

  // The next byte. A full buffer is cut only when one more byte that is not LF arrives.
  function Feed1(s: State, b: byte, max: nat): State {
    if b == LF then Emit(s, Newline, TrimCR(s.buf)).(buf := [], continued := false)
    else if |s.buf| < max then s.(buf := s.buf + [b])
    else Emit(s, MaxBytes, s.buf).(buf := [b], continued := true)
  }

  function Feed(s: State, data: bytes, max: nat): State
    decreases |data|
  {
    if data == [] then s else Feed(Feed1(s, data[0], max), data[1..], max)
  }

  // The idle timer; it is armed only while something is buffered.
  function Fire(s: State): State {
    if s.buf == [] then s else Emit(s, Timeout, s.buf).(buf := [], continued := true)
  }

  function Finish(s: State): State {
    if s.buf == [] then s else Emit(s, EOF, s.buf).(buf := [])
  }

  /* ---- Chunks do not matter ---- */

  lemma {:induction false} FeedSplit(s: State, a: bytes, b: bytes, max: nat)
    ensures Feed(s, a + b, max) == Feed(Feed(s, a, max), b, max)
    decreases |a|
  {
    if a == [] {
      assert a + b == b;
    } else {
      assert (a + b)[1..] == a[1..] + b;
      FeedSplit(Feed1(s, a[0], max), a[1..], b, max);
    }
  }

  // Feeding only adds records.
  lemma {:induction false} FeedExtends(s: State, data: bytes, max: nat)
    ensures s.out <= Feed(s, data, max).out
    decreases |data|
  {
    if data != [] {
      FeedExtends(Feed1(s, data[0], max), data[1..], max);
    }
  }

  function FeedChunks(s: State, chunks: seq<bytes>, max: nat): State
    decreases |chunks|
  {
    if chunks == [] then s else FeedChunks(Feed(s, chunks[0], max), chunks[1..], max)
  }

  lemma {:induction false} ChunksDoNotMatter(s: State, chunks: seq<bytes>, max: nat)
    ensures FeedChunks(s, chunks, max) == Feed(s, Flatten(chunks), max)
    decreases |chunks|
  {
    if chunks != [] {
      FeedSplit(s, chunks[0], Flatten(chunks[1..]), max);
      ChunksDoNotMatter(Feed(s, chunks[0], max), chunks[1..], max);
    }
  }

  // The cutting loop of consume, on a buffer that may have grown past max.
  function Cut(s: State, max: nat): State
    requires max > 0
    decreases |s.buf|
  {
    if |s.buf| <= max then s
    else Cut(Emit(s, MaxBytes, s.buf[..max]).(buf := s.buf[max..], continued := true), max)
  }

  // Appending a stretch without LF and cutting afterwards is feeding it byte by byte.
  lemma {:induction false} FeedIsAppendAndCut(s: State, data: bytes, max: nat)
    requires max > 0 && |s.buf| <= max && LF !in data
    ensures Feed(s, data, max) == Cut(s.(buf := s.buf + data), max)
    ensures |Feed(s, data, max).buf| <= max
    decreases |data|
  {
    if data == [] {
      assert s.buf + data == s.buf;
    } else {
      var s1 := Feed1(s, data[0], max);
      FeedIsAppendAndCut(s1, data[1..], max);
      if |s.buf| < max {
        assert s1.buf + data[1..] == s.buf + data;
      } else {
        assert (s.buf + data)[..max] == s.buf && (s.buf + data)[max..] == s1.buf + data[1..];
      }
    }
  }

  // A first line inside the data: the stretch before the LF, the LF, and what follows.
  lemma FeedLine(s: State, data: bytes, idx: nat, max: nat)
    requires idx < |data| && data[idx] == LF
    ensures Feed(s, data, max) == Feed(Feed1(Feed(s, data[..idx], max), LF, max), data[idx + 1..], max)
  {
    assert data == data[..idx] + data[idx..];
    FeedSplit(s, data[..idx], data[idx..], max);
    assert data[idx..][1..] == data[idx + 1..];
  }

  /* ---- The stream can be rebuilt ---- */

  // What happened to the framer: a byte arrived, or the idle timer fired.
  datatype Event = Byte(b: byte) | Idle

  function Step(s: State, e: Event, max: nat): State {
    match e
    case Byte(b) => Feed1(s, b, max)
    case Idle => Fire(s)
  }

  function Replay(h: seq<Event>, max: nat): State {
    if h == [] then START else Step(Replay(h[..|h| - 1], max), h[|h| - 1], max)
  }

  function LinesOf(fs: seq<Fragment>): (ls: seq<bytes>)
    ensures |ls| == |fs|
    ensures forall k :: 0 <= k < |fs| ==> ls[k] == fs[k].line
  {
    seq(|fs|, k requires 0 <= k < |fs| => fs[k].line)
  }

  // The emitted records as a stream again: LF after every completed line.
  function Rebuild(out: seq<Fragment>): bytes {
    if out == [] then []
    else
      var f := out[|out| - 1];
      Rebuild(out[..|out| - 1]) + f.line + if f.end == Newline then [LF] else []
  }

  ghost predicate EndsInCR(h: seq<Event>) {
    h != [] && h[|h| - 1] == Byte(CR)
  }

  // The input stream with the CR dropped before each LF that follows it directly, no timeout between.
  ghost function Normalized(h: seq<Event>): bytes {
    if h == [] then []
    else
      var n := |h| - 1;
      if h[n] == Idle then Normalized(h[..n])
      else if h[n] == Byte(LF) && EndsInCR(h[..n]) then Normalized(h[..n - 1]) + [LF]
      else Normalized(h[..n]) + [h[n].b]
  }

  lemma NormalizedSnoc(h: seq<Event>, e: Event)
    ensures e == Idle ==> Normalized(h + [e]) == Normalized(h)
    ensures e.Byte? && !(e.b == LF && EndsInCR(h)) ==> Normalized(h + [e]) == Normalized(h) + [e.b]
    ensures e == Byte(LF) && EndsInCR(h) ==>
              Normalized(h) != [] && Normalized(h + [e]) == Normalized(h)[..|Normalized(h)| - 1] + [LF]
  {
    assert (h + [e])[..|h|] == h;
    if EndsInCR(h) {
      var n := |h| - 1;
      assert (h + [e])[..n] == h[..n];
      assert Normalized(h) == Normalized(h[..n]) + [CR];
    }
  }

  // Every line is short and free of LF; only completed lines may be empty, only full ones are cut by
  // size; Continued says whether the record before was cut short.
  ghost predicate Wellformed(out: seq<Fragment>, max: nat) {
    forall i :: 0 <= i < |out| ==> FragmentOk(out, i, max)
  }

  ghost predicate FragmentOk(out: seq<Fragment>, i: nat, max: nat)
    requires i < |out|
  {
    && |out[i].line| <= max
    && LF !in out[i].line
    && (out[i].end != Newline ==> out[i].line != [])
    && (out[i].end == MaxBytes ==> |out[i].line| == max)
    && (out[i].continued <==> i > 0 && out[i - 1].end != Newline)
  }

  // The last thing that happened was a byte of a line not completed yet.
  predicate Unfinished(h: seq<Event>) {
    h != [] && h[|h| - 1].Byte? && h[|h| - 1].b != LF
  }

  // The buffer is the unfinished tail: it is empty exactly after an LF, a timeout, or nothing at all.
  ghost predicate BufferOk(s: State, h: seq<Event>, max: nat) {
    && |s.buf| <= max && LF !in s.buf
    && (s.buf != [] <==> Unfinished(h))
    && (s.buf != [] ==> s.buf[|s.buf| - 1] == h[|h| - 1].b)
  }

  ghost predicate RecordsOk(s: State, max: nat) {
    && Wellformed(s.out, max)
    && (s.continued <==> s.out != [] && s.out[|s.out| - 1].end != Newline)
  }

  // The state after h: bounded buffer, consistent records, and nothing of the stream lost.
  ghost predicate Faithful(s: State, h: seq<Event>, max: nat) {
    BufferOk(s, h, max) && RecordsOk(s, max) && Held(s) == Normalized(h)
  }

  lemma RebuildEmit(s: State, end: RecordEnd, line: bytes)
    ensures Rebuild(Emit(s, end, line).out) == Rebuild(s.out) + line + if end == Newline then [LF] else []
  {
    var out := Emit(s, end, line).out;
    assert out[..|out| - 1] == s.out;
  }

  lemma EmitKeepsRecordsOk(s: State, end: RecordEnd, line: bytes, max: nat)
    requires RecordsOk(s, max) && |line| <= max && LF !in line
    requires (end != Newline ==> line != []) && (end == MaxBytes ==> |line| == max)
    ensures RecordsOk(Emit(s, end, line).(continued := end != Newline), max)
  {
    var t := Emit(s, end, line);
    forall i | 0 <= i < |t.out| ensures FragmentOk(t.out, i, max) {
      assert i < |s.out| ==> FragmentOk(s.out, i, max);
    }
  }

  lemma StepKeepsBufferOk(s: State, e: Event, h: seq<Event>, max: nat)
    requires max > 0 && BufferOk(s, h, max)
    ensures BufferOk(Step(s, e, max), h + [e], max)
  {
  }

  lemma StepKeepsRecordsOk(s: State, e: Event, h: seq<Event>, max: nat)
    requires max > 0 && BufferOk(s, h, max) && RecordsOk(s, max)
    ensures RecordsOk(Step(s, e, max), max)
  {
    if e == Byte(LF) {
      EmitKeepsRecordsOk(s, Newline, TrimCR(s.buf), max);
    } else if e == Idle && s.buf != [] {
      EmitKeepsRecordsOk(s, Timeout, s.buf, max);
    } else if e != Idle && |s.buf| == max {
      EmitKeepsRecordsOk(s, MaxBytes, s.buf, max);
    }
  }

  // The stream held so far: what the records give back, then what is still buffered.
  function Held(s: State): bytes {
    Rebuild(s.out) + s.buf
  }

  lemma TrimmedTail(r: bytes, buf: bytes)
    ensures buf != [] && buf[|buf| - 1] == CR ==> (r + buf)[..|r + buf| - 1] == r + TrimCR(buf)
    ensures !(buf != [] && buf[|buf| - 1] == CR) ==> TrimCR(buf) == buf
  {
  }

  lemma NewlineKeepsStream(s: State, h: seq<Event>, max: nat)
    requires BufferOk(s, h, max) && Held(s) == Normalized(h)
    ensures Held(Feed1(s, LF, max)) == Normalized(h + [Byte(LF)])
  {
    hide Normalized, Rebuild, TrimCR;
    NormalizedSnoc(h, Byte(LF));
    RebuildEmit(s, Newline, TrimCR(s.buf));
    TrimmedTail(Rebuild(s.out), s.buf);
    assert Held(Feed1(s, LF, max)) == Rebuild(s.out) + TrimCR(s.buf) + [LF];
  }

  lemma IdleKeepsStream(s: State)
    ensures Held(Fire(s)) == Held(s)
  {
    if s.buf != [] {
      var r := Rebuild(s.out);
      RebuildEmit(s, Timeout, s.buf);
      assert Rebuild(Fire(s).out) == r + s.buf + [] == r + s.buf;
      assert (r + s.buf) + [] == r + s.buf;
    }
  }

  lemma ByteKeepsStream(s: State, b: byte, max: nat)
    requires b != LF
    ensures Held(Feed1(s, b, max)) == Held(s) + [b]
  {
    var r := Rebuild(s.out);
    if |s.buf| < max {
      assert r + (s.buf + [b]) == (r + s.buf) + [b];
    } else {
      RebuildEmit(s, MaxBytes, s.buf);
      assert Rebuild(Feed1(s, b, max).out) == r + s.buf + [] == r + s.buf;
    }
  }

  // It grows by exactly what the event adds.
  lemma StepKeepsStream(s: State, e: Event, h: seq<Event>, max: nat)
    requires BufferOk(s, h, max) && Held(s) == Normalized(h)
    ensures Held(Step(s, e, max)) == Normalized(h + [e])
  {
    NormalizedSnoc(h, e);
    if e == Idle {
      IdleKeepsStream(s);
    } else if e.b == LF {
      NewlineKeepsStream(s, h, max);
    } else {
      ByteKeepsStream(s, e.b, max);
    }
  }

  lemma StepKeepsFaithful(s: State, e: Event, h: seq<Event>, max: nat)
    requires max > 0 && Faithful(s, h, max)
    ensures Faithful(Step(s, e, max), h + [e], max)
  {
    StepKeepsBufferOk(s, e, h, max);
    StepKeepsRecordsOk(s, e, h, max);
    StepKeepsStream(s, e, h, max);
  }

  // For every stream and every placement of timeouts.
  lemma {:induction false} ReplayIsFaithful(h: seq<Event>, max: nat)
    requires max > 0
    ensures Faithful(Replay(h, max), h, max)
  {
    if h != [] {
      var init, e := h[..|h| - 1], h[|h| - 1];
      ReplayIsFaithful(init, max);
      assert h == init + [e];
      StepKeepsFaithful(Replay(init, max), e, init, max);
    }
  }

  // After the end of the stream the records alone give it back.
  lemma FinishedStreamIsRebuilt(h: seq<Event>, max: nat)
    requires max > 0
    ensures Rebuild(Finish(Replay(h, max)).out) == Normalized(h)
    ensures Wellformed(Finish(Replay(h, max)).out, max)
  {
    var s := Replay(h, max);
    ReplayIsFaithful(h, max);
    if s.buf == [] {
      assert Rebuild(s.out) + s.buf == Rebuild(s.out);
    } else {
      EmitKeepsRecordsOk(s, EOF, s.buf, max);
      RebuildEmit(s, EOF, s.buf);
      assert Rebuild(s.out) + s.buf + [] == Rebuild(s.out) + s.buf;
    }
  }

  // A framer pushes no internal records.
  lemma {:induction false} NoInternalFragments(h: seq<Event>, max: nat)
    ensures forall f :: f in Finish(Replay(h, max)).out ==> f.end != Internal
  {
    if h != [] {
      NoInternalFragments(h[..|h| - 1], max);
      var s, t := Replay(h[..|h| - 1], max), Replay(h, max);
      assert forall f :: f in s.out ==> f in Finish(s).out;
    }
  }

  /* ---- How records end ---- */

  // A timeout and the end of the input each push the unfinished line whole, under their own label, and nothing
  // if there is none.
  lemma UnfinishedIsFlushed(h: seq<Event>, max: nat)
    requires max > 0
    ensures var s := Replay(h, max);
            && Rebuild(s.out) + s.buf == Normalized(h) && (s.buf != [] <==> Unfinished(h))
            && Replay(h + [Idle], max).out == s.out + (if Unfinished(h) then [Fragment(s.buf, Timeout, s.continued)] else [])
            && Finish(s).out == s.out + (if Unfinished(h) then [Fragment(s.buf, EOF, s.continued)] else [])
  {
    ReplayIsFaithful(h, max);
    var s := Replay(h, max);
    assert (h + [Idle])[..|h|] == h;
    assert s.out + [] == s.out;
  }

  function Ended(out: seq<Fragment>, end: RecordEnd): nat {
    if out == [] then 0 else Ended(out[..|out| - 1], end) + if out[|out| - 1].end == end then 1 else 0
  }

  lemma EndedSnoc(out: seq<Fragment>, f: Fragment, end: RecordEnd)
    ensures Ended(out + [f], end) == Ended(out, end) + if f.end == end then 1 else 0
  {
    assert (out + [f])[..|out|] == out;
  }

  function LineFeeds(h: seq<Event>): nat {
    if h == [] then 0 else LineFeeds(h[..|h| - 1]) + if h[|h| - 1] == Byte(LF) then 1 else 0
  }

  // The timeouts that found something to flush.
  function Flushes(h: seq<Event>): nat {
    if h == [] then 0
    else Flushes(h[..|h| - 1]) + if h[|h| - 1] == Idle && Unfinished(h[..|h| - 1]) then 1 else 0
  }

  function Idles(h: seq<Event>): nat {
    if h == [] then 0 else Idles(h[..|h| - 1]) + if h[|h| - 1] == Idle then 1 else 0
  }

  // For every stream: a Newline record for each LF, a Timeout record for each timeout on an unfinished line, and
  // no EOF record before the end of the input.
  lemma {:induction false} EndsAreCounted(h: seq<Event>, max: nat)
    requires max > 0
    ensures Ended(Replay(h, max).out, Newline) == LineFeeds(h)
    ensures Ended(Replay(h, max).out, Timeout) == Flushes(h)
    ensures Ended(Replay(h, max).out, EOF) == 0
  {
    if h != [] {
      var init, e := h[..|h| - 1], h[|h| - 1];
      var s := Replay(init, max);
      EndsAreCounted(init, max);
      assert s.buf != [] <==> Unfinished(init) by { UnfinishedIsFlushed(init, max); }
      assert Replay(h, max) == Step(s, e, max);
      hide Step, Ended, Unfinished, Replay;
      StepEnds(s, e, max, Newline);
      StepEnds(s, e, max, Timeout);
      StepEnds(s, e, max, EOF);
    }
  }

  // At the end there is one, exactly if a line is unfinished then.
  lemma EndOfInputIsCounted(h: seq<Event>, max: nat)
    requires max > 0
    ensures Ended(Finish(Replay(h, max)).out, EOF) == if Unfinished(h) then 1 else 0
  {
    var s := Replay(h, max);
    assert Ended(s.out, EOF) == 0 by { EndsAreCounted(h, max); }
    assert s.buf != [] <==> Unfinished(h) by { UnfinishedIsFlushed(h, max); }
    hide Replay, Unfinished, Ended;
    EndedSnoc(s.out, Fragment(s.buf, EOF, s.continued), EOF);
  }

  lemma StepEnds(s: State, e: Event, max: nat, end: RecordEnd)
    ensures Ended(Step(s, e, max).out, end) == Ended(s.out, end) +
            if e == Byte(LF) then (if end == Newline then 1 else 0)
            else if e == Idle then (if s.buf != [] && end == Timeout then 1 else 0)
            else (if |s.buf| >= max && end == MaxBytes then 1 else 0)
  {
    EndedSnoc(s.out, Fragment(TrimCR(s.buf), Newline, s.continued), end);
    EndedSnoc(s.out, Fragment(s.buf, Timeout, s.continued), end);
    EndedSnoc(s.out, Fragment(s.buf, MaxBytes, s.continued), end);
  }

  /* ---- Without timeouts ---- */

  function Arrivals(data: bytes): (h: seq<Event>)
    ensures |h| == |data| && forall i :: 0 <= i < |data| ==> h[i] == Byte(data[i])
  {
    seq(|data|, i requires 0 <= i < |data| => Byte(data[i]))
  }

  // The bytes among the events.
  function StreamOf(h: seq<Event>): bytes {
    if h == [] then []
    else StreamOf(h[..|h| - 1]) + if h[|h| - 1].Byte? then [h[|h| - 1].b] else []
  }

  lemma StreamOfIdle(h: seq<Event>)
    ensures StreamOf(h + [Idle]) == StreamOf(h)
  {
    assert (h + [Idle])[..|h|] == h;
    assert StreamOf(h) + [] == StreamOf(h);
  }

  lemma {:induction false} StreamOfArrivals(h: seq<Event>, data: bytes)
    ensures StreamOf(h + Arrivals(data)) == StreamOf(h) + data
  {
    if data == [] {
      assert h + Arrivals(data) == h && StreamOf(h) + data == StreamOf(h);
    } else {
      var n := |data| - 1;
      StreamOfArrivals(h, data[..n]);
      assert (h + Arrivals(data))[..|h| + n] == h + Arrivals(data[..n]);
      assert data == data[..n] + [data[n]];
    }
  }

  // Every CR LF becomes LF; every other byte stays.
  function Unix(data: bytes): bytes {
    if data == [] then []
    else if |data| >= 2 && data[0] == CR && data[1] == LF then [LF] + Unix(data[2..])
    else [data[0]] + Unix(data[1..])
  }

  lemma UnixHead(data: bytes)
    requires data != []
    ensures |data| >= 2 && data[0] == CR && data[1] == LF ==> Unix(data) == [LF] + Unix(data[2..])
    ensures !(|data| >= 2 && data[0] == CR && data[1] == LF) ==> Unix(data) == [data[0]] + Unix(data[1..])
  {
  }

  ghost predicate CompletesCRLF(data: bytes, b: byte) {
    b == LF && data != [] && data[|data| - 1] == CR
  }

  // Looking at the stream from its other end.
  lemma {:induction false} UnixSnoc(data: bytes, b: byte)
    ensures Unix(data + [b]) ==
            if CompletesCRLF(data, b) then Unix(data[..|data| - 1]) + [LF] else Unix(data) + [b]
    decreases |data|
  {
    if |data| <= 1 {
      UnixShort(data, b);
    } else {
      var k := if data[0] == CR && data[1] == LF then 2 else 1;
      UnixSnoc(data[k..], b);
      UnixHead(data);
      UnixHead(data + [b]);
      assert (data + [b])[k..] == data[k..] + [b];
      if CompletesCRLF(data, b) {
        UnixInit(data, k);
      }
      hide Unix;
    }
  }

  // The last byte, a CR, taken off.
  lemma UnixInit(data: bytes, k: nat)
    requires |data| >= 2 && data[|data| - 1] == CR && k == if data[0] == CR && data[1] == LF then 2 else 1
    ensures |data| > k
    ensures Unix(data[..|data| - 1]) == [if k == 2 then LF else data[0]] + Unix(data[k..][..|data| - k - 1])
  {
    UnixHead(data[..|data| - 1]);
    TakeThenDrop(data, |data| - 1, k);
  }

  lemma UnixShort(data: bytes, b: byte)
    requires |data| <= 1
    ensures Unix(data + [b]) ==
            if CompletesCRLF(data, b) then Unix(data[..|data| - 1]) + [LF] else Unix(data) + [b]
  {
    var d := data + [b];
    if data == [] {
      assert d == [b] && d[1..] == [];
    } else {
      assert d == [data[0], b] && d[1..] == [b] && d[2..] == [] && data[1..] == [] && [b][1..] == [];
      assert data[..0] == [];
    }
  }

  lemma {:induction false} NormalizedIsUnix(data: bytes)
    ensures Normalized(Arrivals(data)) == Unix(data)
    decreases |data|
  {
    if data != [] {
      var n := |data| - 1;
      assert Arrivals(data)[..n] == Arrivals(data[..n]);
      assert data[..n] + [data[n]] == data;
      UnixSnoc(data[..n], data[n]);
      NormalizedIsUnix(data[..n]);
      if n > 0 {
        assert Arrivals(data)[..n - 1] == Arrivals(data[..n - 1]) && data[..n][..n - 1] == data[..n - 1];
        NormalizedIsUnix(data[..n - 1]);
      }
    }
  }

  lemma FeedOne(s: State, b: byte, max: nat)
    ensures Feed(s, [b], max) == Feed1(s, b, max)
  {
    assert [b][1..] == [];
  }

  lemma ReplayOne(h: seq<Event>, b: byte, max: nat)
    ensures Replay(h + [Byte(b)], max) == Feed1(Replay(h, max), b, max)
  {
    assert (h + [Byte(b)])[..|h|] == h;
  }

  lemma ArrivalsSnoc(h: seq<Event>, data: bytes)
    requires data != []
    ensures var n := |data| - 1; h + Arrivals(data) == h + Arrivals(data[..n]) + [Byte(data[n])] && data == data[..n] + [data[n]]
  {
  }

  // A chunk arriving after h.
  lemma {:induction false} ReplayArrivals(h: seq<Event>, data: bytes, max: nat)
    ensures Replay(h + Arrivals(data), max) == Feed(Replay(h, max), data, max)
  {
    if data == [] {
      assert h + Arrivals(data) == h;
    } else {
      hide *;
      var init, b := data[..|data| - 1], data[|data| - 1];
      ReplayArrivals(h, init, max);
      ArrivalsSnoc(h, data);
      ReplayOne(h + Arrivals(init), b, max);
      FeedSplit(Replay(h, max), init, [b], max);
      FeedOne(Feed(Replay(h, max), init, max), b, max);
    }
  }

  // Without timeouts every CR LF comes back as LF and nothing else changes.
  lemma StreamWithoutTimeouts(data: bytes, max: nat)
    requires max > 0
    ensures Rebuild(Finish(Feed(START, data, max)).out) == Unix(data)
  {
    ReplayArrivals([], data, max);
    assert [] + Arrivals(data) == Arrivals(data);
    NormalizedIsUnix(data);
    FinishedStreamIsRebuilt(Arrivals(data), max);
  }
}
