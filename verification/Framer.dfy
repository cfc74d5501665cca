/**
 framer.go on the heap: one growing buffer, cut by shifting its contents down in place, and records whose
 lines are separate arrays because the queue copies them (pushLocked in queue.go).
 */
module Framer {
  import opened LogRecords
  import F = FramerSpec

  // What the framer's select receives. A chunk is the bytes of one read.
  datatype Event = Chunk(data: bytes) | ReadError | ChannelClosed | TimerFired

  // A read error or the closed channel ends the input.
  predicate Ends(e: Event) {
    e.ReadError? || e.ChannelClosed?
  }

  // Where the first of these is.
  function EndAt(events: seq<Event>): (n: nat)
    ensures n <= |events| && (n < |events| ==> Ends(events[n]))
    ensures forall k :: 0 <= k < n ==> !Ends(events[k])
  {
    if events == [] || Ends(events[0]) then 0 else 1 + EndAt(events[1..])
  }

  // The bytes of the chunks.
  function DataOf(events: seq<Event>): seq<bytes> {
    if events == [] then []
    else DataOf(events[..|events| - 1]) + if events[|events| - 1].Chunk? then [events[|events| - 1].data] else []
  }

  // What e adds to the history of a framer that has seen h: each byte of a chunk, a timeout if the timer was
  // running, which it is while a line is unfinished.
  ghost predicate Adds(h: seq<F.Event>, e: Event, more: seq<F.Event>, interval: nat) {
    match e
    case Chunk(data) => |more| == |data| && forall j :: 0 <= j < |data| ==> more[j] == F.Byte(data[j])
    case TimerFired => more == if interval > 0 && F.Unfinished(h) then [F.Idle] else []
    case _ => more == []
  }

  ghost predicate AddsAt(h0: seq<F.Event>, events: seq<Event>, interval: nat, pieces: seq<seq<F.Event>>, k: nat) {
    k < |pieces| && k < |events| && Adds(h0 + Flatten(pieces[..k]), events[k], pieces[k], interval)
  }

  // The history has grown from h0 to h by what each event added, one after the other.
  ghost predicate Logged(h0: seq<F.Event>, h: seq<F.Event>, events: seq<Event>, interval: nat, pieces: seq<seq<F.Event>>) {
    && |pieces| == |events| && h == h0 + Flatten(pieces)
    && forall k :: 0 <= k < |pieces| ==> AddsAt(h0, events, interval, pieces, k)
  }

  lemma LogGrows(h0: seq<F.Event>, h: seq<F.Event>, events: seq<Event>, interval: nat, pieces: seq<seq<F.Event>>, e: Event,
                 more: seq<F.Event>)
    requires Logged(h0, h, events, interval, pieces) && Adds(h, e, more, interval)
    ensures Logged(h0, h + more, events + [e], interval, pieces + [more])
  {
    hide Adds, Flatten;
    FlattenSnoc(pieces, more);
    Assoc(h0, Flatten(pieces), more);
    forall k | 0 <= k < |pieces + [more]| ensures AddsAt(h0, events + [e], interval, pieces + [more], k) {
      if k < |pieces| {
        assert AddsAt(h0, events, interval, pieces, k) && (pieces + [more])[..k] == pieces[..k];
      } else {
        assert (pieces + [more])[..k] == pieces;
      }
    }
  }

  // So the bytes in the history are those of the chunks, in order.
  lemma {:induction false} LoggedStream(h0: seq<F.Event>, h: seq<F.Event>, events: seq<Event>, interval: nat,
                                        pieces: seq<seq<F.Event>>)
    requires Logged(h0, h, events, interval, pieces)
    ensures F.StreamOf(h) == F.StreamOf(h0) + Flatten(DataOf(events))
    decreases |events|
  {
    if events == [] {
      assert h == h0 + [] == h0 && F.StreamOf(h) + [] == F.StreamOf(h);
    } else {
      hide F.StreamOf, Flatten, Logged, Adds, DataOf;
      var n := |events| - 1;
      var before, data := h0 + Flatten(pieces[..n]), if events[n].Chunk? then [events[n].data] else [];
      LoggedPrefix(h0, h, events, interval, pieces);
      LoggedStream(h0, before, events[..n], interval, pieces[..n]);
      AddedBytes(before, events[n], pieces[n], interval);
      DataOfLast(events);
      FlattenConcat(DataOf(events[..n]), data);
      Assoc(F.StreamOf(h0), Flatten(DataOf(events[..n])), Flatten(data));
    }
  }

  lemma DataOfLast(events: seq<Event>)
    requires events != []
    ensures var e := events[|events| - 1];
            DataOf(events) == DataOf(events[..|events| - 1]) + if e.Chunk? then [e.data] else []
  {
  }

  lemma LoggedPrefix(h0: seq<F.Event>, h: seq<F.Event>, events: seq<Event>, interval: nat, pieces: seq<seq<F.Event>>)
    requires Logged(h0, h, events, interval, pieces) && events != []
    ensures var n := |events| - 1;
            var before := h0 + Flatten(pieces[..n]);
            && |pieces| == n + 1 && h == before + pieces[n] && Adds(before, events[n], pieces[n], interval)
            && Logged(h0, before, events[..n], interval, pieces[..n])
  {
    hide Adds, Flatten;
    var n := |events| - 1;
    assert AddsAt(h0, events, interval, pieces, n);
    assert pieces == pieces[..n] + [pieces[n]];
    FlattenSnoc(pieces[..n], pieces[n]);
    Assoc(h0, Flatten(pieces[..n]), pieces[n]);
    forall k | 0 <= k < n ensures AddsAt(h0, events[..n], interval, pieces[..n], k) {
      assert AddsAt(h0, events, interval, pieces, k) && pieces[..n][..k] == pieces[..k];
    }
  }

  lemma AddedBytes(h: seq<F.Event>, e: Event, more: seq<F.Event>, interval: nat)
    requires Adds(h, e, more, interval)
    ensures F.StreamOf(h + more) == F.StreamOf(h) + Flatten(if e.Chunk? then [e.data] else [])
  {
    if e.Chunk? {
      FlattenOne(e.data);
      assert more == F.Arrivals(e.data);
      F.StreamOfArrivals(h, e.data);
    } else {
      F.StreamOfIdle(h);
      assert h + [] == h && F.StreamOf(h) + [] == F.StreamOf(h);
    }
  }

  /* ---- Timeouts, from what the select receives ---- */

  // Whether a line is unfinished after e, if one was before or not.
  predicate LeavesOpen(open: bool, e: Event) {
    if e.TimerFired? then false
    else if e.Chunk? && e.data != [] then e.data[|e.data| - 1] != LF
    else open
  }

  // A line is unfinished: since the timer last fired bytes have come, and the last of them is no LF.
  predicate IsOpen(events: seq<Event>) {
    events != [] && LeavesOpen(IsOpen(events[..|events| - 1]), events[|events| - 1])
  }

  // How often the timer fired on an unfinished line.
  function Timeouts(events: seq<Event>): nat {
    if events == [] then 0
    else
      var init := events[..|events| - 1];
      Timeouts(init) + if events[|events| - 1].TimerFired? && IsOpen(init) then 1 else 0
  }

  // With a flush interval each of these times is in the history of a framer that started empty, and has found
  // something to flush; without one there are none.
  lemma {:induction false} LoggedTimeouts(h: seq<F.Event>, events: seq<Event>, interval: nat, pieces: seq<seq<F.Event>>)
    requires Logged([], h, events, interval, pieces)
    ensures interval > 0 ==> (F.Unfinished(h) <==> IsOpen(events))
    ensures F.Flushes(h) == F.Idles(h) == if interval > 0 then Timeouts(events) else 0
    decreases |events|
  {
    if events == [] {
      assert h == [];
    } else {
      var n := |events| - 1;
      var before := [] + Flatten(pieces[..n]);
      LoggedPrefix([], h, events, interval, pieces);
      LoggedTimeouts(before, events[..n], interval, pieces[..n]);
      AddedTimeouts(before, events[n], pieces[n], interval);
      LastEvent(events);
      hide *;
    }
  }

  lemma LastEvent(events: seq<Event>)
    requires events != []
    ensures var init, e := events[..|events| - 1], events[|events| - 1];
            && Timeouts(events) == Timeouts(init) + (if e.TimerFired? && IsOpen(init) then 1 else 0)
            && IsOpen(events) == LeavesOpen(IsOpen(init), e)
  {
  }

  lemma AddedTimeouts(h: seq<F.Event>, e: Event, more: seq<F.Event>, interval: nat)
    requires Adds(h, e, more, interval)
    ensures var k := if e.TimerFired? && interval > 0 && F.Unfinished(h) then 1 else 0;
            F.Flushes(h + more) == F.Flushes(h) + k && F.Idles(h + more) == F.Idles(h) + k
    ensures interval > 0 ==> F.Unfinished(h + more) == LeavesOpen(F.Unfinished(h), e)
  {
    if e.Chunk? {
      assert more == F.Arrivals(e.data);
      ArrivalsAreNoTimeouts(h, e.data);
    } else {
      assert (h + [F.Idle])[..|h|] == h && h + [] == h;
    }
  }

  lemma {:induction false} ArrivalsAreNoTimeouts(h: seq<F.Event>, data: bytes)
    ensures var h' := h + F.Arrivals(data);
            && F.Flushes(h') == F.Flushes(h) && F.Idles(h') == F.Idles(h)
            && F.Unfinished(h') == if data == [] then F.Unfinished(h) else data[|data| - 1] != LF
  {
    if data == [] {
      assert h + F.Arrivals(data) == h;
    } else {
      var n := |data| - 1;
      ArrivalsAreNoTimeouts(h, data[..n]);
      assert (h + F.Arrivals(data))[..|h| + n] == h + F.Arrivals(data[..n]);
    }
  }

  datatype Pushed = Pushed(line: array<byte>, end: RecordEnd, continued: bool)

  class Framer {
    const maxFragmentBytes: nat
    const partialFlushInterval: nat
    var store: array<byte>     // backing array of f.buf
    var len: nat               // len(f.buf)
    var continued: bool
    var timerArmed: bool       // timerC is not nil
    var pushed: seq<Pushed>

    ghost var history: seq<F.Event>

    ghost function Lines(): set<object>
      reads this
    {
      set i | 0 <= i < |pushed| :: pushed[i].line
    }

    // No record shares memory with the buffer.
    ghost predicate Separate()
      reads this
    {
      maxFragmentBytes > 0 && len <= store.Length && store !in Lines()
    }

    ghost function Out(): seq<F.Fragment>
      reads this, Lines()
    {
      seq(|pushed|, i requires 0 <= i < |pushed| reads this, Lines() =>
        F.Fragment(pushed[i].line[..], pushed[i].end, pushed[i].continued))
    }

    ghost function Abs(): F.State
      requires len <= store.Length
      reads this, store, Lines()
    {
      F.State(store[..len], continued, Out())
    }

    // Between two events: the buffer is bounded and the timer runs exactly when it should.
    ghost predicate Valid()
      reads this, store, Lines()
    {
      && Separate()
      && len <= maxFragmentBytes
      && Abs() == F.Replay(history, maxFragmentBytes)
      && (timerArmed <==> partialFlushInterval > 0 && len > 0)
    }

    constructor (maxFragmentBytes: nat, partialFlushInterval: nat)
      requires maxFragmentBytes > 0
      ensures Valid() && history == [] && pushed == [] && fresh(store)
      ensures this.maxFragmentBytes == maxFragmentBytes && this.partialFlushInterval == partialFlushInterval
    {
      this.maxFragmentBytes, this.partialFlushInterval := maxFragmentBytes, partialFlushInterval;
      store := new byte[0];
      len, continued, timerArmed, pushed, history := 0, false, false, [], [];
    }

    // A larger backing array with the same buffered bytes.
    method Grow(capacity: nat)
      requires Separate() && len <= capacity
      modifies this`store
      ensures Separate() && fresh(store) && store.Length == capacity && Abs() == old(Abs())
    {
      var bigger := new byte[capacity];
      for i := 0 to len
        invariant bigger[..i] == store[..i]
        invariant Out() == old(Out())
        modifies bigger
      {
        bigger[i] := store[i];
      }
      store := bigger;
      assert Out() == old(Out());
    }

    // append(f.buf, data...)
    method Append(data: bytes)
      requires Separate()
      modifies this`store, this`len, store
      ensures Separate() && (store == old(store) || fresh(store))
      ensures Abs() == old(Abs()).(buf := old(Abs()).buf + data)
    {
      if len + |data| > store.Length {
        Grow(2 * store.Length + |data|);
      }
      for i := 0 to |data|
        invariant store[..len + i] == old(Abs()).buf + data[..i]
        invariant Out() == old(Out())
        modifies store
      {
        store[len + i] := data[i];
      }
      assert data[..|data|] == data;
      len := len + |data|;
      assert Out() == old(Out());
    }

    // f.emit with the copy the queue makes of the first n buffered bytes.
    method Emit(end: RecordEnd, n: nat)
      requires Separate() && n <= len
      modifies this`pushed
      ensures Separate() && old(pushed) < pushed
      ensures forall i :: |old(pushed)| <= i < |pushed| ==> fresh(pushed[i].line)
      ensures Abs() == F.Emit(old(Abs()), end, old(Abs()).buf[..n])
    {
      var copy := new byte[n];
      for i := 0 to n
        invariant copy[..i] == store[..i]
        invariant Out() == old(Out())
        modifies copy
      {
        copy[i] := store[i];
      }
      pushed := pushed + [Pushed(copy, end, continued)];
      assert copy[..] == store[..n] == store[..len][..n];
      assert Out()[..|old(pushed)|] == old(Out());
    }

    // copy(f.buf, f.buf[n:]) and reslicing: the tail moves down within the same array.
    method DropFront(n: nat)
      requires Separate() && n <= len
      modifies this`len, store
      ensures Separate() && Abs() == old(Abs()).(buf := old(Abs()).buf[n..])
    {
      ghost var was := store[..];
      for i := 0 to len - n
        invariant forall j :: 0 <= j < i ==> store[j] == was[n + j]
        invariant forall j :: i <= j < store.Length ==> store[j] == was[j]
        invariant Out() == old(Out())
        modifies store
      {
        store[i] := store[n + i];
      }
      len := len - n;
    }

    // The loop that keeps the buffer bounded.
    method CutLong()
      requires Separate()
      modifies this`pushed, this`len, this`continued, store
      ensures Separate() && len <= maxFragmentBytes && old(pushed) <= pushed
      ensures forall i :: |old(pushed)| <= i < |pushed| ==> fresh(pushed[i].line)
      ensures Abs() == F.Cut(old(Abs()), maxFragmentBytes)
    {
      while len > maxFragmentBytes
        invariant Separate() && old(pushed) <= pushed
        invariant forall i :: |old(pushed)| <= i < |pushed| ==> fresh(pushed[i].line)
        invariant F.Cut(Abs(), maxFragmentBytes) == F.Cut(old(Abs()), maxFragmentBytes)
        decreases len
      {
        ghost var s := Abs();
        Emit(MaxBytes, maxFragmentBytes);
        DropFront(maxFragmentBytes);
        ghost var out := Out();
        continued := true;
        assert Out() == out;
        assert Abs() == F.Emit(s, MaxBytes, s.buf[..maxFragmentBytes]).(buf := s.buf[maxFragmentBytes..], continued := true);
      }
    }

    // bytes.IndexByte
    static method IndexByte(s: bytes, b: byte) returns (i: int)
      ensures -1 <= i < |s|
      ensures i >= 0 ==> s[i] == b && b !in s[..i]
      ensures i < 0 ==> b !in s
    {
      for j := 0 to |s|
        invariant b !in s[..j]
      {
        if s[j] == b {
          return j;
        }
      }
      return -1;
    }

    // A stretch without LF: append, then cut.
    method TakeIn(data: bytes)
      requires Separate() && len <= maxFragmentBytes && LF !in data
      modifies this`store, this`len, this`pushed, this`continued, store
      ensures Separate() && len <= maxFragmentBytes && (store == old(store) || fresh(store)) && old(pushed) <= pushed
      ensures forall i :: |old(pushed)| <= i < |pushed| ==> fresh(pushed[i].line)
      ensures Abs() == F.Feed(old(Abs()), data, maxFragmentBytes)
    {
      F.FeedIsAppendAndCut(Abs(), data, maxFragmentBytes);
      Append(data);
      CutLong();
    }

    // The line is complete: push it without its trailing CR.
    method EndLine()
      requires Separate() && len <= maxFragmentBytes
      modifies this`len, this`pushed, this`continued
      ensures Separate() && len == 0 && old(pushed) <= pushed
      ensures forall i :: |old(pushed)| <= i < |pushed| ==> fresh(pushed[i].line)
      ensures Abs() == F.Feed1(old(Abs()), LF, maxFragmentBytes)
    {
      ghost var s := Abs();
      var n := if len > 0 && store[len - 1] == CR then len - 1 else len;
      assert F.TrimCR(s.buf) == s.buf[..n];
      Emit(Newline, n);
      ghost var out := Out();
      len, continued := 0, false;
      assert Out() == out;
    }

    // consume. The lines pushed before keep their bytes although the buffer is rewritten in place.
    method Consume(data: bytes)
      requires Separate() && len <= maxFragmentBytes
      modifies this`store, this`len, this`pushed, this`continued, store
      ensures Separate() && len <= maxFragmentBytes && (store == old(store) || fresh(store)) && old(pushed) <= pushed
      ensures forall i :: |old(pushed)| <= i < |pushed| ==> fresh(pushed[i].line)
      ensures Abs() == F.Feed(old(Abs()), data, maxFragmentBytes)
      ensures forall i :: 0 <= i < |old(pushed)| ==> pushed[i].line[..] == old(pushed[i].line[..])
    {
      F.FeedExtends(Abs(), data, maxFragmentBytes);
      ghost var out0 := Out();
      var rest := data;
      while |rest| > 0
        invariant Separate() && len <= maxFragmentBytes && (store == old(store) || fresh(store)) && old(pushed) <= pushed
        invariant forall i :: |old(pushed)| <= i < |pushed| ==> fresh(pushed[i].line)
        invariant F.Feed(Abs(), rest, maxFragmentBytes) == F.Feed(old(Abs()), data, maxFragmentBytes)
        decreases |rest|
      {
        var idx := IndexByte(rest, LF);
        if idx < 0 {
          TakeIn(rest);
          SameLines(out0, |old(pushed)|);
          return;
        }
        F.FeedLine(Abs(), rest, idx, maxFragmentBytes);
        TakeIn(rest[..idx]);
        EndLine();
        rest := rest[idx + 1..];
      }
      SameLines(out0, |old(pushed)|);
    }

    lemma SameLines(out0: seq<F.Fragment>, n: nat)
      requires |out0| == n && out0 <= Out()
      ensures forall i :: 0 <= i < n ==> pushed[i].line[..] == out0[i].line
    {
      assert forall i :: 0 <= i < n ==> Out()[i] == out0[i];
    }

    // resetTimer: armed exactly while a timeout would have something to flush.
    method ResetTimer()
      modifies this`timerArmed
      ensures timerArmed <==> partialFlushInterval > 0 && len > 0
    {
      timerArmed := !(partialFlushInterval == 0 || len == 0);
    }

    method HandleChunk(data: bytes)
      requires Valid()
      modifies this, store
      ensures Valid() && history == old(history) + F.Arrivals(data) && (store == old(store) || fresh(store))
      ensures old(pushed) <= pushed
      ensures forall i :: |old(pushed)| <= i < |pushed| ==> fresh(pushed[i].line)
    {
      Consume(data);
      ResetTimer();
      F.ReplayArrivals(history, data, maxFragmentBytes);
      history := history + F.Arrivals(data);
    }

    method HandleTimeout()
      requires Valid() && timerArmed
      modifies this
      ensures Valid() && history == old(history) + [F.Idle] && len == 0 && store == old(store)
      ensures |pushed| == |old(pushed)| + 1 && old(pushed) <= pushed && fresh(pushed[|old(pushed)|].line)
    {
      ghost var s := Abs();
      Emit(Timeout, len);
      ghost var out := Out();
      len, continued := 0, true;
      assert Out() == out && s.buf[..|s.buf|] == s.buf;
      ResetTimer();
      assert (history + [F.Idle])[..|history|] == history;
      history := history + [F.Idle];
    }

    method EmitEOF()
      requires Separate()
      modifies this`len, this`pushed
      ensures Separate() && Abs() == F.Finish(old(Abs())) && old(pushed) <= pushed
      ensures forall i :: |old(pushed)| <= i < |pushed| ==> fresh(pushed[i].line)
    {
      if len == 0 {
        return;
      }
      ghost var s := Abs();
      Emit(EOF, len);
      ghost var out := Out();
      len := 0;
      assert Out() == out && s.buf[..|s.buf|] == s.buf;
    }

    // run: the select loop over whatever arrives, up to the first event that ends the input, which it returns.
    // The history grows by what each event before that one adds.
    method Run(events: seq<Event>) returns (end: Option<Event>, ghost pieces: seq<seq<F.Event>>)
      requires Valid()
      modifies this, store
      ensures end == if EndAt(events) < |events| then Some(events[EndAt(events)]) else None
      ensures Logged(old(history), history, events[..EndAt(events)], partialFlushInterval, pieces)
      ensures F.StreamOf(history) == F.StreamOf(old(history)) + Flatten(DataOf(events[..EndAt(events)]))
      ensures old(pushed) <= pushed && len <= store.Length
      ensures end.None? ==> Valid()
      ensures end.Some? ==> Abs() == F.Finish(F.Replay(history, maxFragmentBytes))
    {
      hide F.StreamOf, Flatten, Logged, F.Finish, F.Replay;
      pieces := [];
      NothingLogged(history, partialFlushInterval);
      for i := 0 to |events|
        invariant Valid() && old(pushed) <= pushed
        invariant i <= EndAt(events)
        invariant Logged(old(history), history, events[..i], partialFlushInterval, pieces)
        invariant store == old(store) || fresh(store)
      {
        if Ends(events[i]) {
          EmitEOF();
          LoggedStream(old(history), history, events[..i], partialFlushInterval, pieces);
          return Some(events[i]), pieces;
        }
        assert events[..i + 1] == events[..i] + [events[i]];
        ghost var before := history;
        Handle(events[i]);
        LogGrows(old(history), before, events[..i], partialFlushInterval, pieces, events[i], history[|before|..]);
        assert before + history[|before|..] == history;
        pieces := pieces + [history[|before|..]];
      }
      assert events[..|events|] == events;
      LoggedStream(old(history), history, events, partialFlushInterval, pieces);
      return None, pieces;
    }

    // The two cases of the select that do not return.
    method Handle(e: Event)
      requires Valid() && !Ends(e)
      modifies this, store
      ensures Valid() && (store == old(store) || fresh(store)) && old(pushed) <= pushed
      ensures old(history) <= history && Adds(old(history), e, history[|old(history)|..], partialFlushInterval)
    {
      F.ReplayIsFaithful(history, maxFragmentBytes);
      assert len > 0 <==> Abs().buf != [];
      hide F.Replay;
      match e {
        case Chunk(data) => HandleChunk(data);
        case TimerFired =>
          if timerArmed {
            HandleTimeout();
          }
      }
    }
  }

  lemma NothingLogged(h: seq<F.Event>, interval: nat)
    ensures Logged(h, h, [], interval, [])
  {
  }
}
