/** The two hand-written splitters (source_network.go, source_journal.go) against the framer. */
module Splitters {
  import opened LogRecords
  import F = FramerSpec

  // What both splitters push for one line: full fragments, then the rest as a completed line.
  function Split(line: bytes, max: nat, continued: bool): seq<F.Fragment>
    requires max > 0
    decreases |line|
  {
    if |line| <= max then [F.Fragment(line, Newline, continued)]
    else [F.Fragment(line[..max], MaxBytes, continued)] + Split(line[max..], max, true)
  }

  lemma SplitStep(out: seq<F.Fragment>, line: bytes, max: nat, continued: bool)
    requires 0 < max < |line|
    ensures out + [F.Fragment(line[..max], MaxBytes, continued)] + Split(line[max..], max, true)
         == out + Split(line, max, continued)
  {
  }

  // A limit that is not positive means no splitting.
  function Pushes(line: bytes, max: int): seq<F.Fragment> {
    if max <= 0 then [F.Fragment(line, Newline, false)] else Split(line, max, false)
  }

  class NetworkSource {
    const maxFragmentBytes: int
    var pushed: seq<F.Fragment>

    constructor (maxFragmentBytes: int)
      ensures this.maxFragmentBytes == maxFragmentBytes && pushed == []
    {
      this.maxFragmentBytes, pushed := maxFragmentBytes, [];
    }

    method PushDatagram(line: bytes)
      modifies this
      ensures pushed == old(pushed) + Pushes(line, maxFragmentBytes)
    {
      if maxFragmentBytes <= 0 || |line| <= maxFragmentBytes {
        pushed := pushed + [F.Fragment(line, Newline, false)];
        return;
      }
      var remaining, continued := line, false;
      while |remaining| > maxFragmentBytes
        invariant pushed + Split(remaining, maxFragmentBytes, continued) == old(pushed) + Pushes(line, maxFragmentBytes)
        decreases |remaining|
      {
        SplitStep(pushed, remaining, maxFragmentBytes, continued);
        pushed := pushed + [F.Fragment(remaining[..maxFragmentBytes], MaxBytes, continued)];
        remaining := remaining[maxFragmentBytes..];
        continued := true;
      }
      pushed := pushed + [F.Fragment(remaining, Newline, continued)];
    }
  }

  class JournalSource {
    const maxFragmentBytes: int
    var pushed: seq<F.Fragment>

    constructor (maxFragmentBytes: int)
      ensures this.maxFragmentBytes == maxFragmentBytes && pushed == []
    {
      this.maxFragmentBytes, pushed := maxFragmentBytes, [];
    }

    // The line is the MESSAGE of a parsed entry; an entry that does not parse pushes nothing.
    method PushJournalLine(message: Option<bytes>) returns (ok: bool)
      modifies this
      ensures ok == message.Some?
      ensures pushed == if ok then old(pushed) + Pushes(message.value, maxFragmentBytes) else old(pushed)
    {
      if message.None? {
        return false;
      }
      var line := message.value;
      ok := true;
      if maxFragmentBytes <= 0 || |line| <= maxFragmentBytes {
        pushed := pushed + [F.Fragment(line, Newline, false)];
        return;
      }
      var remaining, continued := line, false;
      while |remaining| > maxFragmentBytes
        invariant pushed + Split(remaining, maxFragmentBytes, continued) == old(pushed) + Pushes(line, maxFragmentBytes)
        decreases |remaining|
      {
        SplitStep(pushed, remaining, maxFragmentBytes, continued);
        pushed := pushed + [F.Fragment(remaining[..maxFragmentBytes], MaxBytes, continued)];
        remaining := remaining[maxFragmentBytes..];
        continued := true;
      }
      pushed := pushed + [F.Fragment(remaining, Newline, continued)];
    }
  }

  // What a fresh framer pushes for the line followed by LF.
  function Framed(line: bytes, max: nat): seq<F.Fragment> {
    F.Feed(F.START, line + [LF], max).out
  }

  lemma {:induction false} CutThenLine(s: F.State, max: nat)
    requires max > 0 && LF !in s.buf && F.TrimCR(s.buf) == s.buf
    ensures F.Feed1(F.Cut(s, max), LF, max).out == s.out + Split(s.buf, max, s.continued)
    decreases |s.buf|
  {
    if |s.buf| > max {
      var line := s.buf[..max];
      var s1 := F.Emit(s, MaxBytes, line).(buf := s.buf[max..], continued := true);
      CutThenLine(s1, max);
      assert s.out + [F.Fragment(line, MaxBytes, s.continued)] + Split(s1.buf, max, true)
          == s.out + ([F.Fragment(line, MaxBytes, s.continued)] + Split(s1.buf, max, true));
    }
  }

  lemma AgreeOnPlainLines(line: bytes, max: nat)
    requires max > 0 && LF !in line && F.TrimCR(line) == line
    ensures Framed(line, max) == Split(line, max, false)
  {
    F.FeedSplit(F.START, line, [LF], max);
    F.FeedIsAppendAndCut(F.START, line, max);
    assert [LF][1..] == [] && [] + line == line;
    CutThenLine(F.START.(buf := line), max);
  }

  function Lines(out: seq<F.Fragment>): nat {
    if out == [] then 0 else Lines(out[..|out| - 1]) + if out[|out| - 1].end == Newline then 1 else 0
  }

  function Joined(out: seq<F.Fragment>): bytes {
    Flatten(F.LinesOf(out))
  }

  lemma {:induction false} SplitJoins(line: bytes, max: nat, continued: bool)
    requires max > 0
    ensures Joined(Split(line, max, continued)) == line
    decreases |line|
  {
    if |line| > max {
      SplitJoins(line[max..], max, true);
      var rest := Split(line[max..], max, true);
      assert F.LinesOf(Split(line, max, continued)) == [line[..max]] + F.LinesOf(rest);
      FlattenHead(line[..max], F.LinesOf(rest));
    } else {
      assert F.LinesOf(Split(line, max, continued)) == [line];
      FlattenOne(line);
    }
  }

  // Whatever the limit: nothing of the line is lost, and only the last fragment completes it.
  lemma PushesJoin(line: bytes, max: int)
    ensures Joined(Pushes(line, max)) == line && Lines(Pushes(line, max)) == 1
    ensures max <= 0 || |line| <= max ==> |Pushes(line, max)| == 1
  {
    if max > 0 {
      SplitJoins(line, max, false);
      SplitIsOneLine([], line, max, false);
      assert [] + Split(line, max, false) == Split(line, max, false);
    } else {
      assert F.LinesOf(Pushes(line, max)) == [line];
      FlattenOne(line);
      assert Pushes(line, max)[..0] == [];
    }
  }

  lemma JoinedSnoc(out: seq<F.Fragment>, f: F.Fragment)
    ensures Joined(out + [f]) == Joined(out) + f.line
  {
    assert F.LinesOf(out + [f]) == F.LinesOf(out) + [f.line];
    FlattenSnoc(F.LinesOf(out), f.line);
  }

  // The records joined hold no LF and one CR less for each completed line that had one.
  lemma {:induction false} FedBytes(s: F.State, data: bytes, max: nat)
    requires max > 0 && LF !in data
    ensures Joined(F.Feed(s, data, max).out) + F.Feed(s, data, max).buf == Joined(s.out) + s.buf + data
    decreases |data|
  {
    if data != [] {
      var s1 := F.Feed1(s, data[0], max);
      FedBytes(s1, data[1..], max);
      if |s.buf| >= max {
        JoinedSnoc(s.out, F.Fragment(s.buf, MaxBytes, s.continued));
      }
      assert Joined(s1.out) + s1.buf == Joined(s.out) + s.buf + [data[0]];
      assert [data[0]] + data[1..] == data;
    }
  }

  lemma {:induction false} LinesAreFed(s: F.State, data: bytes, max: nat)
    requires LF in data
    ensures Lines(F.Feed(s, data, max).out) > Lines(s.out)
    decreases |data|
  {
    var s1 := F.Feed1(s, data[0], max);
    if data[0] == LF {
      assert s1.out[..|s.out|] == s.out;
      LinesOnlyGrow(s1, data[1..], max);
    } else {
      if s1.out != s.out {
        assert s1.out[..|s.out|] == s.out;
      }
      LinesAreFed(s1, data[1..], max);
    }
  }

  lemma {:induction false} LinesOnlyGrow(s: F.State, data: bytes, max: nat)
    ensures Lines(F.Feed(s, data, max).out) >= Lines(s.out)
    decreases |data|
  {
    if data != [] {
      var s1 := F.Feed1(s, data[0], max);
      if s1.out != s.out {
        assert s1.out[..|s.out|] == s.out;
      }
      LinesOnlyGrow(s1, data[1..], max);
    }
  }

  lemma {:induction false} SplitIsOneLine(out: seq<F.Fragment>, line: bytes, max: nat, continued: bool)
    requires max > 0
    ensures Lines(out + Split(line, max, continued)) == Lines(out) + 1
    decreases |line|
  {
    if |line| > max {
      var f := F.Fragment(line[..max], MaxBytes, continued);
      SplitIsOneLine(out + [f], line[max..], max, true);
      assert out + Split(line, max, continued) == (out + [f]) + Split(line[max..], max, true);
      assert (out + [f])[..|out|] == out;
    } else {
      assert (out + Split(line, max, continued))[..|out|] == out;
    }
  }

  // A line with an LF inside, or ending in CR, is treated differently by the two.
  lemma DisagreeOtherwise(line: bytes, max: nat)
    requires max > 0 && (LF in line || F.TrimCR(line) != line)
    ensures Framed(line, max) != Split(line, max, false)
  {
    F.FeedSplit(F.START, line, [LF], max);
    assert [LF][1..] == [];
    var s := F.Feed(F.START, line, max);
    var last := F.Fragment(F.TrimCR(s.buf), Newline, s.continued);
    assert Framed(line, max) == s.out + [last];
    if LF in line {
      LinesAreFed(F.START, line, max);
      assert (s.out + [last])[..|s.out|] == s.out;
      SplitIsOneLine([], line, max, false);
      assert [] + Split(line, max, false) == Split(line, max, false);
    } else {
      FedBytes(F.START, line, max);
      assert Joined(s.out) + s.buf == line;
      JoinedSnoc(s.out, last);
      SplitJoins(line, max, false);
      F.FeedIsAppendAndCut(F.START, line, max);
      LastByteIsBuffered(F.START, line, max);
    }
  }

  lemma {:induction false} LastByteIsBuffered(s: F.State, data: bytes, max: nat)
    requires max > 0 && LF !in data && data != []
    ensures var buf := F.Feed(s, data, max).buf; buf != [] && buf[|buf| - 1] == data[|data| - 1]
    decreases |data|
  {
    if |data| > 1 {
      LastByteIsBuffered(F.Feed1(s, data[0], max), data[1..], max);
    } else {
      assert data[1..] == [];
    }
  }

  // bytes.TrimRight(datagram, "\r\n"), applied to every datagram first.
  function TrimRight(d: bytes): (r: bytes)
    ensures r <= d
    ensures r == [] || (r[|r| - 1] != CR && r[|r| - 1] != LF)
    ensures forall i :: |r| <= i < |d| ==> d[i] == CR || d[i] == LF
  {
    if d != [] && (d[|d| - 1] == CR || d[|d| - 1] == LF) then TrimRight(d[..|d| - 1]) else d
  }

  // Exactly: the splitters agree with the framer on a line if and only if it has no LF inside and does
  // not end in CR.
  lemma SplittersAgree(line: bytes, max: nat)
    requires max > 0
    ensures Pushes(line, max) == Framed(line, max) <==> LF !in line && (line == [] || line[|line| - 1] != CR)
  {
    if LF !in line && F.TrimCR(line) == line {
      AgreeOnPlainLines(line, max);
    } else {
      DisagreeOtherwise(line, max);
    }
  }

  // So a datagram, once trimmed, is framed like the same text arriving over TCP unless an LF is inside it.
  lemma DatagramsAgree(datagram: bytes, max: nat)
    requires max > 0
    ensures Pushes(TrimRight(datagram), max) == Framed(TrimRight(datagram), max) <==> LF !in TrimRight(datagram)
  {
    SplittersAgree(TrimRight(datagram), max);
  }
}
