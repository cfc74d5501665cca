/** A decoder of JSON strings (RFC 8259 section 7), and what it makes of the escaper's output. */
module JsonDecode {
  import opened LogRecords
  import opened JsonString
  import U = Utf8

  function HexValue(b: byte): Option<nat> {
    if 0x30 <= b <= 0x39 then Some((b - 0x30) as nat)
    else if 0x61 <= b <= 0x66 then Some((b - 0x61) as nat + 10)
    else if 0x41 <= b <= 0x46 then Some((b - 0x41) as nat + 10)
    else None
  }

  // The code unit of an escape \uXXXX at the start of t.
  function CodeUnit(t: bytes): Option<nat> {
    if |t| < 6 || t[0] != BACKSLASH || t[1] != 0x75 then None
    else
      match (HexValue(t[2]), HexValue(t[3]), HexValue(t[4]), HexValue(t[5]))
      case (Some(a), Some(b), Some(c), Some(d)) => Some(a * 4096 + b * 256 + c * 16 + d)
      case _ => None
  }

  function TwoCharEscape(c: byte): Option<U.Rune> {
    if c == QUOTE || c == BACKSLASH || c == 0x2f then Some(c as int)
    else if c == 0x62 then Some(0x08)
    else if c == 0x66 then Some(0x0c)
    else if c == 0x6e then Some(0x0a)
    else if c == 0x72 then Some(0x0d)
    else if c == 0x74 then Some(0x09)
    else None
  }

  // One "char" of the grammar at the start of t, and its width. Surrogate escapes come in pairs.
  function ParseChar(t: bytes): Option<(U.Rune, nat)>
    requires t != []
  {
    if t[0] == BACKSLASH then
      if |t| >= 2 && t[1] == 0x75 then
        match CodeUnit(t)
        case None => None
        case Some(u) =>
          if u < 0xD800 || 0xE000 <= u then Some((u, 6))
          else
            match CodeUnit(t[6..])
            case Some(low) =>
              if u < 0xDC00 && 0xDC00 <= low < 0xE000
              then Some((0x10000 + (u - 0xD800) * 1024 + (low - 0xDC00), 12)) else None
            case None => None
      else if |t| >= 2 && TwoCharEscape(t[1]).Some? then Some((TwoCharEscape(t[1]).value, 2))
      else None
    else if t[0] < 0x20 || t[0] == QUOTE || U.StartsInvalid(t) then None
    else Some(U.DecodeRune(t))
  }

  // The chars up to the closing quote, which must end the text.
  function ParseBody(t: bytes): Option<seq<U.Rune>> {
    if t == [] then None
    else if t[0] == QUOTE then (if |t| == 1 then Some([]) else None)
    else
      match ParseChar(t)
      case None => None
      case Some((r, n)) =>
        if n == 0 || n > |t| then None
        else
          match ParseBody(t[n..])
          case None => None
          case Some(rest) => Some([r] + rest)
  }

  // The value of a JSON string text; None if it is not one.
  function Parse(t: bytes): Option<seq<U.Rune>> {
    if t == [] || t[0] != QUOTE then None else ParseBody(t[1..])
  }

  lemma HexDigitValue(n: nat)
    requires n < 16
    ensures HexValue(HexDigit(n)) == Some(n)
  {
  }

  // The hex digits are those of the byte.
  lemma HexByteValue(b: byte)
    ensures HexValue(HexByte(b)[0]).Some? && HexValue(HexByte(b)[1]).Some?
    ensures HexValue(HexByte(b)[0]).value * 16 + HexValue(HexByte(b)[1]).value == b as int
  {
    HexDigitValue(b as int / 16);
    HexDigitValue(b as int % 16);
  }

  lemma ParseEscapedByte(c: byte, rest: bytes)
    requires c < 0x80
    ensures ParseChar(EscapeByte(c) + rest) == Some((c as int, |EscapeByte(c)|))
    ensures (EscapeByte(c) + rest)[0] != QUOTE
  {
    var t := EscapeByte(c) + rest;
    assert forall i :: 0 <= i < |EscapeByte(c)| ==> t[i] == EscapeByte(c)[i];
    HexByteValue(c);
  }

  lemma ParseReplacement(rest: bytes)
    ensures ParseChar(ESCAPED_FFFD + rest) == Some((U.REPLACEMENT, 6))
    ensures ParseChar(ESCAPED_2028 + rest) == Some((0x2028, 6))
    ensures ParseChar(ESCAPED_2029 + rest) == Some((0x2029, 6))
  {
  }

  // A valid multi-byte sequence stays what it is whatever follows it.
  lemma ParseCopied(s: bytes, rest: bytes)
    requires s != [] && s[0] >= 0x80 && !U.StartsInvalid(s)
    ensures var (r, n) := U.DecodeRune(s);
            n <= |s| && n >= 2 && ParseChar(s[..n] + rest) == Some((r, n)) && (s[..n] + rest)[0] == s[0]
  {
    U.InvalidIsErrorOfWidthOne(s);
    U.EncodeOfDecode(s);
    var (r, n) := U.DecodeRune(s);
    U.DecodeOfEncode(r, rest);
    U.InvalidIsErrorOfWidthOne(s[..n] + rest);
  }

  // The escape of the first rune reads back as that rune, or as U+FFFD for an invalid byte.
  lemma ParseHead(s: bytes, rest: bytes)
    requires s != []
    ensures var t := EscapeHead(s) + rest;
            && t != [] && t[0] != QUOTE
            && ParseChar(t) == Some((U.DecodeRune(s).0, |EscapeHead(s)|))
  {
    U.InvalidIsErrorOfWidthOne(s);
    if s[0] < 0x80 {
      ParseEscapedByte(s[0], rest);
    } else {
      ParseReplacement(rest);
      if !U.StartsInvalid(s) {
        ParseCopied(s, rest);
      }
    }
  }

  lemma {:induction false} ParseEscape(s: bytes)
    ensures ParseBody(Escape(s) + [QUOTE]) == Some(U.Runes(s))
  {
    if s == [] {
      assert Escape(s) + [QUOTE] == [QUOTE];
    } else {
      U.InvalidIsErrorOfWidthOne(s);
      var n := U.DecodeRune(s).1;
      var head, rest := EscapeHead(s), Escape(s[n..]) + [QUOTE];
      ParseEscape(s[n..]);
      ParseHead(s, rest);
      assert Escape(s) + [QUOTE] == head + rest;
      assert (head + rest)[|head|..] == rest;
    }
  }

  // For every byte string: the output is one JSON string, and it reads back as the input with each byte
  // that starts no valid UTF-8 sequence replaced by U+FFFD.
  lemma RoundTrip(s: bytes)
    ensures Parse(Quoted(s)) == Some(U.Runes(s))
    ensures forall r :: r in U.Runes(s) ==> U.IsScalar(r)
    ensures U.Encode(U.Runes(s)) == U.Sanitized(s)
    ensures U.Valid(s) ==> U.Encode(U.Runes(s)) == s
  {
    ParseEscape(s);
    assert Quoted(s)[1..] == Escape(s) + [QUOTE];
    U.EncodeOfRunes(s);
    if U.Valid(s) {
      U.SanitizedValid(s);
    }
  }

  // So different valid strings have different escapes.
  lemma InjectiveOnValid(s: bytes, t: bytes)
    requires U.Valid(s) && U.Valid(t) && Quoted(s) == Quoted(t)
    ensures s == t
  {
    RoundTrip(s);
    RoundTrip(t);
  }

  // The runes of s, with None for each byte that starts no valid sequence.
  function Marks(s: bytes): seq<Option<U.Rune>> {
    if s == [] then []
    else [if U.StartsInvalid(s) then None else Some(U.DecodeRune(s).0)] + Marks(s[U.DecodeRune(s).1..])
  }

  function EscapeMark(m: Option<U.Rune>): bytes
    requires m.Some? ==> U.IsScalar(m.value)
  {
    match m
    case None => ESCAPED_FFFD
    case Some(r) =>
      if r < 0x80 then EscapeByte(r as byte)
      else if r == 0x2028 then ESCAPED_2028
      else if r == 0x2029 then ESCAPED_2029
      else U.EncodeRune(r)
  }

  lemma HeadOfMark(s: bytes)
    requires s != []
    ensures Marks(s) != [] && (Marks(s)[0].Some? ==> U.IsScalar(Marks(s)[0].value))
    ensures EscapeHead(s) == EscapeMark(Marks(s)[0])
    ensures Marks(s)[0].None? <==> HeadReading(s) == (U.REPLACEMENT, 6)
  {
    U.InvalidIsErrorOfWidthOne(s);
    if !U.StartsInvalid(s) {
      U.EncodeOfDecode(s);
    }
  }

  function HeadReading(s: bytes): (U.Rune, nat)
    requires s != []
  {
    (U.DecodeRune(s).0, |EscapeHead(s)|)
  }

  // Two strings have the same escape exactly if they differ at most in which bytes their invalid bytes are.
  lemma {:induction false} EqualEscapes(s: bytes, t: bytes)
    ensures Escape(s) == Escape(t) <==> Marks(s) == Marks(t)
    decreases |s|
  {
    if s != [] && t != [] {
      U.InvalidIsErrorOfWidthOne(s);
      U.InvalidIsErrorOfWidthOne(t);
      var s', t' := s[U.DecodeRune(s).1..], t[U.DecodeRune(t).1..];
      EqualEscapes(s', t');
      HeadOfMark(s);
      HeadOfMark(t);
      assert Marks(s)[1..] == Marks(s') && Marks(t)[1..] == Marks(t');
      ParseHead(s, Escape(s'));
      ParseHead(t, Escape(t'));
      if Escape(s) == Escape(t) {
        assert Escape(s') == Escape(s)[|EscapeHead(s)|..] == Escape(t)[|EscapeHead(t)|..] == Escape(t');
      }
    } else if s != [] {
      ParseHead(s, Escape(s[U.DecodeRune(s).1..]));
    } else if t != [] {
      ParseHead(t, Escape(t[U.DecodeRune(t).1..]));
    }
  }

  // Validity is needed for injectivity: these two look the same afterwards.
  lemma NotInjectiveOnInvalid()
    ensures [0x80 as byte] != [0x81 as byte] && Quoted([0x80]) == Quoted([0x81])
  {
    assert [0x80 as byte][1..] == [] && [0x81 as byte][1..] == [];
  }

  /* ---- Shape and size ---- */

  lemma HeadShape(s: bytes)
    requires s != []
    ensures forall b :: b in EscapeHead(s) ==> b >= 0x20
    ensures |EscapeHead(s)| <= 6 * U.DecodeRune(s).1
  {
    U.InvalidIsErrorOfWidthOne(s);
    if s[0] >= 0x80 && !U.StartsInvalid(s) {
      assert forall b :: b in s[..U.DecodeRune(s).1] ==> b >= 0x80;
    }
  }

  lemma {:induction false} EscapeShape(s: bytes)
    ensures forall b :: b in Escape(s) ==> b >= 0x20
    ensures |Escape(s)| <= 6 * |s|
  {
    if s != [] {
      U.InvalidIsErrorOfWidthOne(s);
      HeadShape(s);
      EscapeShape(s[U.DecodeRune(s).1..]);
    }
  }

  // No control byte, in particular no LF, so one record stays one line of NDJSON; at most six bytes for
  // one, plus the quotes.
  lemma QuotedShape(s: bytes)
    ensures forall b :: b in Quoted(s) ==> b >= 0x20
    ensures LF !in Quoted(s)
    ensures |Quoted(s)| <= 6 * |s| + 2
  {
    EscapeShape(s);
  }

  // The bound is reached.
  lemma QuotedBoundIsTight()
    ensures |Quoted([0])| == 6 * |[0 as byte]| + 2
  {
    assert [0 as byte][1..] == [];
  }

  predicate IsLowerHex(b: byte) {
    0x30 <= b <= 0x39 || 0x61 <= b <= 0x66
  }

  // How long the escape of a byte or rune is: two bytes for quote, backslash, LF, CR and tab; six for the other
  // controls, for an invalid byte, and for U+2028 and U+2029, in lower-case hex; everything else is copied.
  lemma HeadLength(s: bytes)
    requires s != []
    ensures var c, (r, n) := s[0], U.DecodeRune(s);
            && (c in {QUOTE, BACKSLASH, 0x0a, 0x0d, 0x09} ==> |EscapeHead(s)| == 2)
            && ((c < 0x20 && c !in {0x0a, 0x0d, 0x09}) || U.StartsInvalid(s) || r in {0x2028, 0x2029} ==> |EscapeHead(s)| == 6)
            && (c >= 0x20 && c != QUOTE && c != BACKSLASH && !U.StartsInvalid(s) && r !in {0x2028, 0x2029}
                ==> n <= |s| && EscapeHead(s) == s[..n])
            && (|EscapeHead(s)| == 6 ==> forall i :: 2 <= i < 6 ==> IsLowerHex(EscapeHead(s)[i]))
  {
    U.InvalidIsErrorOfWidthOne(s);
  }

  // The UTF-8 form of U+2028 or U+2029 begins at i.
  predicate SeparatorAt(t: bytes, i: nat) {
    i + 2 < |t| && t[i] == 0xe2 && t[i + 1] == 0x80 && (t[i + 2] == 0xa8 || t[i + 2] == 0xa9)
  }

  lemma NoSeparatorInHead(s: bytes, rest: bytes, i: nat)
    requires s != [] && i < |EscapeHead(s)|
    ensures !SeparatorAt(EscapeHead(s) + rest, i)
  {
    U.InvalidIsErrorOfWidthOne(s);
    var h := EscapeHead(s);
    if s[0] >= 0x80 && !U.StartsInvalid(s) && h == s[..U.DecodeRune(s).1] {
      U.EncodeOfDecode(s);
      assert (h + rest)[i] == h[i];
      if i == 0 && |h| == 3 {
        assert (h + rest)[1] == h[1] && (h + rest)[2] == h[2];
      }
    } else {
      assert (h + rest)[i] == h[i] && h[i] < 0x80;
    }
  }

  lemma {:induction false} NoSeparatorInEscape(s: bytes, end: bytes, i: nat)
    requires i < |Escape(s)|
    ensures !SeparatorAt(Escape(s) + end, i)
  {
    if s != [] {
      U.InvalidIsErrorOfWidthOne(s);
      var h, tail := EscapeHead(s), Escape(s[U.DecodeRune(s).1..]);
      Assoc(h, tail, end);
      if i < |h| {
        NoSeparatorInHead(s, tail + end, i);
      } else {
        NoSeparatorInEscape(s[U.DecodeRune(s).1..], end, i - |h|);
        hide Escape, EscapeHead;
        assert forall j :: 0 <= j < |tail + end| ==> (h + (tail + end))[|h| + j] == (tail + end)[j];
      }
    }
  }

  // The line separators of Unicode never stand in the output as they are.
  lemma NoRawSeparators(s: bytes, i: nat)
    ensures !SeparatorAt(Quoted(s), i)
  {
    var t := Escape(s) + [QUOTE];
    Assoc([QUOTE], Escape(s), [QUOTE]);
    assert forall j :: 0 <= j < |t| ==> Quoted(s)[j + 1] == t[j];
    if 0 < i <= |Escape(s)| {
      NoSeparatorInEscape(s, [QUOTE], i - 1);
    }
  }
}
