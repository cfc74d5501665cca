/** The string escaper of format_json.go, against JSON strings as section 7 of RFC 8259 defines them. */
module JsonString {
  import opened LogRecords
  import U = Utf8

  const QUOTE: byte := 0x22

  function HexDigit(n: nat): byte
    requires n < 16
  {
    if n < 10 then (0x30 + n) as byte else (0x61 + n - 10) as byte
  }

  function HexByte(b: byte): bytes {
    [HexDigit(b as int / 16), HexDigit(b as int % 16)]
  }

  // The escape of one ASCII byte, itself if it needs none.
  function EscapeByte(c: byte): bytes
    requires c < 0x80
  {
    if c >= 0x20 && c != BACKSLASH && c != QUOTE then [c]
    else if c == BACKSLASH || c == QUOTE then [BACKSLASH, c]
    else if c == 0x0a then [BACKSLASH, 0x6e]
    else if c == 0x0d then [BACKSLASH, 0x72]
    else if c == 0x09 then [BACKSLASH, 0x74]
    else [BACKSLASH, 0x75, 0x30, 0x30] + HexByte(c)
  }

  const ESCAPED_FFFD: bytes := [BACKSLASH, 0x75, 0x66, 0x66, 0x66, 0x64]
  const ESCAPED_2028: bytes := [BACKSLASH, 0x75, 0x32, 0x30, 0x32, 0x38]
  const ESCAPED_2029: bytes := [BACKSLASH, 0x75, 0x32, 0x30, 0x32, 0x39]

  // The escape of the first rune, or of the first byte if it starts no valid sequence.
  function EscapeHead(s: bytes): bytes
    requires s != []
  {
    if s[0] < 0x80 then EscapeByte(s[0])
    else
      var (r, size) := U.DecodeRune(s);
      if r == U.REPLACEMENT && size == 1 then ESCAPED_FFFD
      else if r == 0x2028 then ESCAPED_2028
      else if r == 0x2029 then ESCAPED_2029
      else s[..size]
  }

  // Rune by rune, no runs.
  function Escape(s: bytes): bytes {
    if s == [] then [] else EscapeHead(s) + Escape(s[U.DecodeRune(s).1..])
  }

  function Quoted(s: bytes): bytes {
    [QUOTE] + Escape(s) + [QUOTE]
  }

  // The switch over the bytes that have their own escape.
  method AppendEscapedByte(buf: bytes, c: byte) returns (out: bytes)
    requires c < 0x80 && !(c >= 0x20 && c != BACKSLASH && c != QUOTE)
    ensures out == buf + EscapeByte(c)
  {
    if c == BACKSLASH || c == QUOTE {
      out := buf + [BACKSLASH, c];
    } else if c == 0x0a {
      out := buf + [BACKSLASH, 0x6e];
    } else if c == 0x0d {
      out := buf + [BACKSLASH, 0x72];
    } else if c == 0x09 {
      out := buf + [BACKSLASH, 0x74];
    } else {
      out := buf + [BACKSLASH, 0x75, 0x30, 0x30] + HexByte(c);
    }
  }

  // One turn of the loop: either the run s[start..i] grows, or it is flushed and an escape follows.
  method AppendRune(buf: bytes, s: bytes, start: nat, i: nat) returns (out: bytes, start': nat, i': nat)
    requires start <= i < |s|
    ensures i' == i + U.DecodeRune(s[i..]).1 && i < i' <= |s| && start <= start' <= i'
    ensures out + s[start'..i'] == buf + s[start..i] + EscapeHead(s[i..])
  {
    U.InvalidIsErrorOfWidthOne(s[i..]);
    var c := s[i];
    if c < 0x80 {
      if c >= 0x20 && c != BACKSLASH && c != QUOTE {
        RunGrows(buf, s, start, i, 1);
        return buf, start, i + 1;
      }
      out := AppendEscapedByte(buf + s[start..i], c);
      return out, i + 1, i + 1;
    }
    var (r, size) := U.DecodeRune(s[i..]);
    if r == U.REPLACEMENT && size == 1 {
      return buf + s[start..i] + ESCAPED_FFFD, i + 1, i + 1;
    }
    if r == 0x2028 || r == 0x2029 {
      return buf + s[start..i] + (if r == 0x2028 then ESCAPED_2028 else ESCAPED_2029), i + size, i + size;
    }
    RunGrows(buf, s, start, i, size);
    return buf, start, i + size;
  }

  // The same, seen from the whole string: what is written, the pending run and what is to come.
  method Advance(buf: bytes, s: bytes, start: nat, i: nat, ghost all: bytes)
    returns (out: bytes, start': nat, i': nat)
    requires start <= i < |s| && buf + s[start..i] + Escape(s[i..]) == all
    ensures i < i' <= |s| && start <= start' <= i'
    ensures out + s[start'..i'] + Escape(s[i'..]) == all
  {
    hide *;
    EscapeStep(s, i, buf + s[start..i]);
    out, start', i' := AppendRune(buf, s, start, i);
  }

  // appendJSONStringBytes: runs of bytes that need no escape are copied in one piece.
  method AppendJSONStringBytes(buf: bytes, s: bytes) returns (out: bytes)
    ensures out == buf + Quoted(s)
  {
    out := buf + [QUOTE];
    ghost var all := out + Escape(s);
    FirstRun(out, s);
    var start, i := 0, 0;
    while i < |s|
      invariant start <= i <= |s|
      invariant out + s[start..i] + Escape(s[i..]) == all
      decreases |s| - i
    {
      out, start, i := Advance(out, s, start, i, all);
    }
    Closing(buf, s, out, start);
    out := out + s[start..] + [QUOTE];
  }

  lemma FirstRun(out: bytes, s: bytes)
    ensures out + s[0..0] + Escape(s[0..]) == out + Escape(s)
  {
    assert s[0..] == s && out + s[0..0] == out;
  }

  lemma Closing(buf: bytes, s: bytes, out: bytes, start: nat)
    requires start <= |s| && out + s[start..|s|] + Escape(s[|s|..]) == buf + [QUOTE] + Escape(s)
    ensures out + s[start..] + [QUOTE] == buf + Quoted(s)
  {
    assert s[|s|..] == [] && s[start..|s|] == s[start..];
    var done := out + s[start..];
    assert done + [] == done;
    Assoc(buf, [QUOTE], Escape(s));
    Assoc(buf, [QUOTE] + Escape(s), [QUOTE]);
  }

  lemma EscapeStep(s: bytes, i: nat, done: bytes)
    requires i < |s|
    ensures var n := U.DecodeRune(s[i..]).1;
            i + n <= |s| && done + Escape(s[i..]) == done + EscapeHead(s[i..]) + Escape(s[i + n..])
  {
    var n := U.DecodeRune(s[i..]).1;
    U.InvalidIsErrorOfWidthOne(s[i..]);
    assert s[i..][n..] == s[i + n..];
    Assoc(done, EscapeHead(s[i..]), Escape(s[i + n..]));
  }

  // The pending run takes the next n bytes along as they are.
  lemma RunGrows(out: bytes, s: bytes, start: nat, i: nat, n: nat)
    requires start <= i < i + n <= |s|
    ensures out + s[start..i + n] == out + s[start..i] + s[i..][..n]
    ensures n == 1 ==> s[i..][..n] == [s[i]]
  {
    assert s[start..i + n] == s[start..i] + s[i..][..n];
    Assoc(out, s[start..i], s[i..][..n]);
  }
}
