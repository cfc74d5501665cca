/** ansi.go: the stripper of terminal control sequences, a transducer that carries its state over records. */
module Ansi {
  import opened LogRecords

  datatype State = Normal | Esc | Csi | Osc | OscEsc

  const BEL: byte := 0x07
  const LBRACKET: byte := 0x5b
  const RBRACKET: byte := 0x5d

  // One iteration of the byte loop: the next state and the bytes appended to the output.
  function Step(s: State, c: byte): (State, bytes) {
    match s
    case Normal => if c == ESC then (Esc, []) else (Normal, [c])
    case Esc =>
      if c == LBRACKET then (Csi, [])
      else if c == RBRACKET then (Osc, [])
      else if c == ESC then (Esc, [])
      else (Normal, [])
    case Csi => (if 0x40 <= c <= 0x7e then Normal else Csi, [])
    case Osc => (if c == BEL then Normal else if c == ESC then OscEsc else Osc, [])
    case OscEsc => (if c == BACKSLASH then Normal else if c != ESC then Osc else OscEsc, [])
  }

  // The state machine over a whole byte string.
  function StripFrom(s: State, p: bytes): (State, bytes)
    decreases |p|
  {
    if p == [] then (s, [])
    else
      var (s1, o) := Step(s, p[0]);
      var (s2, rest) := StripFrom(s1, p[1..]);
      (s2, o + rest)
  }

  // Cutting the input anywhere and carrying the state over changes nothing.
  lemma {:induction false} StripSplit(s: State, a: bytes, b: bytes)
    ensures StripFrom(s, a + b) == (StripFrom(StripFrom(s, a).0, b).0, StripFrom(s, a).1 + StripFrom(StripFrom(s, a).0, b).1)
    decreases |a|
  {
    if a == [] {
      assert a + b == b && [] + StripFrom(s, b).1 == StripFrom(s, b).1;
    } else {
      var (s1, o) := Step(s, a[0]);
      hide Step;
      assert (a + b)[0] == a[0] && (a + b)[1..] == a[1..] + b;
      StripSplit(s1, a[1..], b);
      var (s2, rest) := StripFrom(s1, a[1..]);
      Assoc(o, rest, StripFrom(s2, b).1);
    }
  }

  // The fast path: without ESC, and outside any sequence, the machine copies its input.
  lemma {:induction false} StripPlain(p: bytes)
    requires ESC !in p
    ensures StripFrom(Normal, p) == (Normal, p)
  {
    if p != [] {
      StripPlain(p[1..]);
      assert [p[0]] + p[1..] == p;
    }
  }

  // From every state, on every input: the output has no ESC and is a subsequence of the input.
  lemma {:induction false} StripOutputClean(s: State, p: bytes)
    ensures ESC !in StripFrom(s, p).1
    ensures IsSubsequence(StripFrom(s, p).1, p)
    decreases |p|
  {
    if p != [] {
      var (s1, o) := Step(s, p[0]);
      var (s2, rest) := StripFrom(s1, p[1..]);
      StripOutputClean(s1, p[1..]);
      if o != [] {
        assert o + rest == [p[0]] + rest && (o + rest)[1..] == rest;
      } else {
        assert o + rest == rest;
        SubsequenceSkipOne(rest, p);
      }
    }
  }

  // Stripping what was stripped changes nothing.
  lemma StripIdempotent(s: State, p: bytes)
    ensures StripFrom(Normal, StripFrom(s, p).1) == (Normal, StripFrom(s, p).1)
  {
    StripOutputClean(s, p);
    StripPlain(StripFrom(s, p).1);
  }

  /* ---- The grammar of complete sequences, after ECMA-48 ---- */

  // Text, and what the stripper takes for complete control sequences: CSI (section 5.4), OSC strings (section
  // 5.6) ended by ST in its two-byte form or by BEL, and ESC with one more byte. For some bytes ECMA-48 goes on
  // after those two; what is left of such sequences is stated below.
  datatype Token =
    | Text(text: bytes)
    | CsiSequence(params: bytes, intermediates: bytes, final: byte)
    | OscString(body: bytes, endedByBel: bool)
    | EscControl(control: byte)

  ghost predicate InRange(p: bytes, lo: byte, hi: byte) {
    forall c :: c in p ==> lo <= c <= hi
  }

  ghost predicate WellFormed(t: Token) {
    match t
    case Text(text) => ESC !in text
    case CsiSequence(params, intermediates, final) =>
      InRange(params, 0x30, 0x3f) && InRange(intermediates, 0x20, 0x2f) && 0x40 <= final <= 0x7e
    case OscString(body, _) => ESC !in body && BEL !in body
    case EscControl(c) => c != ESC && c != LBRACKET && c != RBRACKET
  }

  function Render(t: Token): bytes {
    match t
    case Text(text) => text
    case CsiSequence(params, intermediates, final) => [ESC, LBRACKET] + params + intermediates + [final]
    case OscString(body, endedByBel) => [ESC, RBRACKET] + body + (if endedByBel then [BEL] else [ESC, BACKSLASH])
    case EscControl(c) => [ESC, c]
  }

  function TextOf(t: Token): bytes {
    if t.Text? then t.text else []
  }

  function RenderAll(ts: seq<Token>): bytes {
    if ts == [] then [] else Render(ts[0]) + RenderAll(ts[1..])
  }

  function TextOfAll(ts: seq<Token>): bytes {
    if ts == [] then [] else TextOf(ts[0]) + TextOfAll(ts[1..])
  }

  lemma {:induction false} CsiBodyStays(p: bytes)
    requires InRange(p, 0x20, 0x3f)
    ensures StripFrom(Csi, p) == (Csi, [])
  {
    if p != [] {
      assert p[0] in p && forall c :: c in p[1..] ==> c in p;
      CsiBodyStays(p[1..]);
      assert Step(Csi, p[0]) == (Csi, []);
      assert StripFrom(Csi, p).1 == [] + StripFrom(Csi, p[1..]).1;
    }
  }

  lemma {:induction false} OscBodyStays(p: bytes)
    requires ESC !in p && BEL !in p
    ensures StripFrom(Osc, p) == (Osc, [])
  {
    if p != [] {
      OscBodyStays(p[1..]);
      assert Step(Osc, p[0]) == (Osc, []);
      assert StripFrom(Osc, p).1 == [] + StripFrom(Osc, p[1..]).1;
    }
  }

  lemma StripOne(s: State, c: byte)
    ensures StripFrom(s, [c]) == Step(s, c)
  {
    var (s1, o) := Step(s, c);
    assert [c][1..] == [] && o + [] == o;
  }

  lemma StripTwo(s: State, c: byte, d: byte)
    ensures StripFrom(s, [c, d]) == (Step(Step(s, c).0, d).0, Step(s, c).1 + Step(Step(s, c).0, d).1)
  {
    assert [c, d] == [c] + [d];
    StripSplit(s, [c], [d]);
    StripOne(s, c);
    StripOne(Step(s, c).0, d);
  }

  lemma StripToken(t: Token)
    requires WellFormed(t)
    ensures StripFrom(Normal, Render(t)) == (Normal, TextOf(t))
  {
    match t
    case Text(text) =>
      StripPlain(text);
    case CsiSequence(params, intermediates, final) =>
      var opening, inner := [ESC, LBRACKET], params + intermediates;
      StripTwo(Normal, ESC, LBRACKET);
      CsiBodyStays(inner);
      StripOne(Csi, final);
      StripSplit(Normal, opening, inner);
      StripSplit(Normal, opening + inner, [final]);
      assert Render(t) == opening + inner + [final];
    case OscString(body, endedByBel) =>
      var opening, closing := [ESC, RBRACKET], if endedByBel then [BEL] else [ESC, BACKSLASH];
      StripTwo(Normal, ESC, RBRACKET);
      OscBodyStays(body);
      StripOne(Osc, BEL);
      StripTwo(Osc, ESC, BACKSLASH);
      StripSplit(Normal, opening, body);
      StripSplit(Normal, opening + body, closing);
    case EscControl(c) =>
      StripTwo(Normal, ESC, c);
      assert Render(t) == [ESC, c] && [] + [] == TextOf(t);
  }

  // Any concatenation of text and complete sequences strips to exactly its text.
  lemma {:induction false} StripGrammar(ts: seq<Token>)
    requires forall t :: t in ts ==> WellFormed(t)
    ensures StripFrom(Normal, RenderAll(ts)) == (Normal, TextOfAll(ts))
  {
    if ts != [] {
      StripToken(ts[0]);
      StripGrammar(ts[1..]);
      StripSplit(Normal, Render(ts[0]), RenderAll(ts[1..]));
    }
  }

  // A sequence cut off at any point leaks nothing: what was emitted is the text before it.
  lemma StripIncompleteSequence(ts: seq<Token>, t: Token, cut: nat)
    requires forall u :: u in ts ==> WellFormed(u)
    requires WellFormed(t) && !t.Text? && cut <= |Render(t)|
    ensures StripFrom(Normal, RenderAll(ts) + Render(t)[..cut]).1 == TextOfAll(ts)
  {
    var r := Render(t);
    StripGrammar(ts);
    StripSplit(Normal, RenderAll(ts), r[..cut]);
    StripToken(t);
    StripSplit(Normal, r[..cut], r[cut..]);
    assert r[..cut] + r[cut..] == r;
  }

  /* ---- Sequences the stripper does not know ---- */

  // Whatever follows ESC but "[", "]" or another ESC is dropped with it, and the text goes on after it.
  lemma EscapeDropsTwo(c: byte, rest: bytes)
    requires c != LBRACKET && c != RBRACKET && c != ESC
    ensures StripFrom(Normal, [ESC, c] + rest) == StripFrom(Normal, rest)
  {
    StripTwo(Normal, ESC, c);
    StripSplit(Normal, [ESC, c], rest);
    assert [] + StripFrom(Normal, rest).1 == StripFrom(Normal, rest).1;
  }

  // After ESC, a byte that ECMA-48 does not end a sequence at: "P", "X", "^" or "_" opens a control string (section
  // 5.6), and a byte of column 2 is followed by a final byte, as in the designation of a character set.
  predicate GoesOn(c: byte) {
    c == 0x50 || c == 0x58 || c == 0x5e || c == 0x5f || 0x20 <= c <= 0x2f
  }

  // A sequence of ECMA-48: complete in the grammar above; a control string other than OSC (DCS, SOS, PM or APC)
  // ended by ST; or an escape sequence with intermediate bytes.
  datatype Sequence =
    | Known(token: Token)
    | ControlString(opener: byte, body: bytes)
    | WithIntermediates(inter: bytes, final: byte)

  ghost predicate IsSequence(q: Sequence) {
    match q
    case Known(t) => WellFormed(t) && !t.Text? && (t.EscControl? ==> !GoesOn(t.control))
    case ControlString(c, body) => GoesOn(c) && c >= 0x30 && ESC !in body
    case WithIntermediates(inter, final) => inter != [] && InRange(inter, 0x20, 0x2f) && 0x30 <= final <= 0x7e
  }

  function RenderSequence(q: Sequence): bytes {
    match q
    case Known(t) => Render(t)
    case ControlString(c, body) => [ESC, c] + (body + [ESC, BACKSLASH])
    case WithIntermediates(inter, final) => [ESC] + inter + [final]
  }

  // What is left of it: nothing, the whole body, or all but the first intermediate byte.
  function LeftOf(q: Sequence): bytes {
    match q
    case Known(t) => []
    case ControlString(c, body) => body
    case WithIntermediates(inter, final) => if inter == [] then [] else inter[1..] + [final]
  }

  lemma SequenceLeaves(q: Sequence)
    requires IsSequence(q)
    ensures StripFrom(Normal, RenderSequence(q)) == (Normal, LeftOf(q))
  {
    match q
    case Known(t) => StripToken(t);
    case ControlString(c, body) =>
      EscapeDropsTwo(c, body + [ESC, BACKSLASH]);
      EscapeDropsTwo(BACKSLASH, []);
      assert [ESC, BACKSLASH] + [] == [ESC, BACKSLASH];
      StripPlain(body);
      StripSplit(Normal, body, [ESC, BACKSLASH]);
      assert body + [] == body;
    case WithIntermediates(inter, final) => IntermediatesLeave(inter, final);
  }

  lemma IntermediatesLeave(inter: bytes, final: byte)
    requires IsSequence(WithIntermediates(inter, final))
    ensures StripFrom(Normal, [ESC] + inter + [final]) == (Normal, inter[1..] + [final])
  {
    var rest := inter[1..] + [final];
    assert inter[0] in inter && forall c :: c in rest ==> c in inter || c == final;
    assert [ESC] + inter + [final] == [ESC, inter[0]] + rest;
    EscapeDropsTwo(inter[0], rest);
    StripPlain(rest);
  }

  // Exactly: nothing is left of a sequence complete in the grammar above and of an empty control string, and of
  // no other.
  lemma NothingLeftIff(q: Sequence)
    requires IsSequence(q)
    ensures StripFrom(Normal, RenderSequence(q)).1 == [] <==> q.Known? || (q.ControlString? && q.body == [])
  {
    SequenceLeaves(q);
  }

  /* ---- The stripper without states, on any input ---- */

  predicate IsFinal(c: byte) {
    0x40 <= c <= 0x7e
  }

  // How much of p an open CSI sequence takes: up to its first final byte, whatever comes before, or all of it.
  function CsiLength(p: bytes): (n: nat)
    ensures n <= |p| && forall i :: 0 <= i < n - 1 ==> !IsFinal(p[i])
    ensures n == |p| || (n > 0 && IsFinal(p[n - 1]))
  {
    if p == [] then 0 else if IsFinal(p[0]) then 1 else 1 + CsiLength(p[1..])
  }

  // An OSC string is closed by a BEL that no ESC precedes, or by a backslash that one does.
  predicate ClosesOsc(p: bytes, i: nat)
    requires i < |p|
  {
    p[i] == if i > 0 && p[i - 1] == ESC then BACKSLASH else BEL
  }

  // How much of p an open OSC string takes, if the first i bytes do not close it.
  function OscLength(p: bytes, i: nat): (n: nat)
    requires i <= |p|
    ensures i <= n <= |p| && forall j :: i <= j < n - 1 ==> !ClosesOsc(p, j)
    ensures n == |p| || (n > i && ClosesOsc(p, n - 1))
    decreases |p| - i
  {
    if i == |p| then i else if ClosesOsc(p, i) then i + 1 else OscLength(p, i + 1)
  }

  // Bytes outside any sequence stay. ESC and the byte after it go; an ESC right after an ESC starts anew; with
  // "[" or "]" the whole CSI sequence or OSC string goes.
  function Uncontrolled(p: bytes): bytes
    decreases |p|
  {
    if p == [] then []
    else if p[0] != ESC then [p[0]] + Uncontrolled(p[1..])
    else if |p| == 1 then []
    else if p[1] == ESC then Uncontrolled(p[1..])
    else if p[1] == LBRACKET then Uncontrolled(p[2..][CsiLength(p[2..])..])
    else if p[1] == RBRACKET then Uncontrolled(p[2..][OscLength(p[2..], 0)..])
    else Uncontrolled(p[2..])
  }

  lemma {:induction false} CsiRuns(p: bytes)
    ensures StripFrom(Csi, p).1 == StripFrom(Normal, p[CsiLength(p)..]).1
    decreases |p|
  {
    if p != [] {
      CutFirst(Csi, p);
      if !IsFinal(p[0]) {
        CsiRuns(p[1..]);
        assert p[1..][CsiLength(p[1..])..] == p[CsiLength(p)..];
      }
    }
  }

  lemma {:induction false} OscRuns(p: bytes, i: nat)
    requires i <= |p|
    ensures StripFrom(if i > 0 && p[i - 1] == ESC then OscEsc else Osc, p[i..]).1 == StripFrom(Normal, p[OscLength(p, i)..]).1
    decreases |p| - i
  {
    if i < |p| {
      CutFirst(if i > 0 && p[i - 1] == ESC then OscEsc else Osc, p[i..]);
      assert p[i..][1..] == p[i + 1..];
      if !ClosesOsc(p, i) {
        OscRuns(p, i + 1);
      }
    }
  }

  lemma CutFirst(s: State, p: bytes)
    requires p != []
    ensures StripFrom(s, p).1 == Step(s, p[0]).1 + StripFrom(Step(s, p[0]).0, p[1..]).1
    ensures Step(s, p[0]).1 == [] ==> StripFrom(s, p).1 == StripFrom(Step(s, p[0]).0, p[1..]).1
  {
  }

  // An ESC after an ESC starts anew.
  lemma EscapeStartsAnew(rest: bytes)
    ensures StripFrom(Normal, [ESC, ESC] + rest) == StripFrom(Normal, [ESC] + rest)
  {
    StripTwo(Normal, ESC, ESC);
    StripOne(Normal, ESC);
    StripSplit(Normal, [ESC, ESC], rest);
    StripSplit(Normal, [ESC], rest);
  }

  // On every input: what the machine keeps is what the cuts leave.
  lemma {:induction false} StripIsUncontrolled(p: bytes)
    ensures StripFrom(Normal, p).1 == Uncontrolled(p)
    decreases |p|
  {
    if p != [] {
      CutFirst(Normal, p);
      if p[0] != ESC {
        StripIsUncontrolled(p[1..]);
      } else if |p| > 1 {
        CutFirst(Esc, p[1..]);
        assert p[1..][1..] == p[2..];
        if p[1] == ESC {
          CutFirst(Normal, p[1..]);
          StripIsUncontrolled(p[1..]);
        } else if p[1] == LBRACKET {
          CsiRuns(p[2..]);
          StripIsUncontrolled(p[2..][CsiLength(p[2..])..]);
        } else if p[1] == RBRACKET {
          OscRuns(p[2..], 0);
          assert p[2..][0..] == p[2..];
          StripIsUncontrolled(p[2..][OscLength(p[2..], 0)..]);
        } else {
          StripIsUncontrolled(p[2..]);
        }
      }
    }
  }

  /* ---- Several records of one stream ---- */

  function StripLines(s: State, lines: seq<bytes>): (State, seq<bytes>)
    decreases |lines|
  {
    if lines == [] then (s, [])
    else
      var (s1, o) := StripFrom(s, lines[0]);
      var (s2, rest) := StripLines(s1, lines[1..]);
      (s2, [o] + rest)
  }

  // Stripping record by record is stripping the whole stream, however it was cut into records.
  lemma {:induction false} StripLinesIsStrip(s: State, lines: seq<bytes>)
    ensures StripFrom(s, Flatten(lines)) == (StripLines(s, lines).0, Flatten(StripLines(s, lines).1))
    decreases |lines|
  {
    if lines != [] {
      var (s1, o) := StripFrom(s, lines[0]);
      StripSplit(s, lines[0], Flatten(lines[1..]));
      StripLinesIsStrip(s1, lines[1..]);
      var rest := StripLines(s1, lines[1..]).1;
      assert ([o] + rest)[1..] == rest;
    }
  }

  lemma {:induction false} StripLinesSnoc(s: State, lines: seq<bytes>, line: bytes)
    ensures StripLines(s, lines + [line]) ==
            (StripFrom(StripLines(s, lines).0, line).0,
             StripLines(s, lines).1 + [StripFrom(StripLines(s, lines).0, line).1])
    decreases |lines|
  {
    if lines == [] {
      assert lines + [line] == [line] && [line][1..] == [];
      var o := StripFrom(s, line).1;
      assert [o] + [] == [] + [o];
    } else {
      var (s1, o) := StripFrom(s, lines[0]);
      assert (lines + [line])[1..] == lines[1..] + [line];
      StripLinesSnoc(s1, lines[1..], line);
      assert (lines + [line])[0] == lines[0];
      var (s2, rest) := StripLines(s1, lines[1..]);
      assert [o] + (rest + [StripFrom(s2, line).1]) == ([o] + rest) + [StripFrom(s2, line).1];
    }
  }

  class AnsiStripper {
    var state: State
    var out: bytes

    constructor ()
      ensures state == Normal
    {
      state, out := Normal, [];
    }

    method Strip(p: bytes) returns (r: bytes)
      modifies this
      ensures (state, r) == StripFrom(old(state), p)
    {
      if state == Normal && ESC !in p {
        StripPlain(p);
        return p;
      }
      out := [];
      for i := 0 to |p|
        invariant (state, out) == StripFrom(old(state), p[..i])
      {
        var c := p[i];
        ghost var before, sofar := state, out;
        match state {
          case Normal =>
            if c == ESC { state := Esc; } else { out := out + [c]; }
          case Esc =>
            if c == LBRACKET { state := Csi; }
            else if c == RBRACKET { state := Osc; }
            else if c == ESC { state := Esc; }
            else { state := Normal; }
          case Csi =>
            if 0x40 <= c <= 0x7e { state := Normal; }
          case Osc =>
            if c == BEL { state := Normal; } else if c == ESC { state := OscEsc; }
          case OscEsc =>
            if c == BACKSLASH { state := Normal; } else if c != ESC { state := Osc; }
        }
        assert sofar + [] == sofar;
        assert (state, out) == (Step(before, c).0, sofar + Step(before, c).1);
        StripSplit(old(state), p[..i], [c]);
        StripOne(before, c);
        assert p[..i + 1] == p[..i] + [c];
      }
      assert p[..|p|] == p;
      return out;
    }
  }
}
