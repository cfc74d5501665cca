/** UTF-8 after RFC 3629: encoding (section 3), the grammar of valid sequences (section 4), and decoding
    that replaces each byte that starts no valid sequence, as unicode/utf8 does. */
module Utf8 {
  import opened LogRecords

  type Rune = int

  const REPLACEMENT: Rune := 0xFFFD

  // A Unicode scalar value.
  predicate IsScalar(r: Rune) {
    0 <= r < 0xD800 || 0xE000 <= r <= 0x10FFFF
  }

  predicate IsTail(b: byte) { 0x80 <= b <= 0xBF }

  predicate Is2(s: bytes) {
    |s| >= 2 && 0xC2 <= s[0] <= 0xDF && IsTail(s[1])
  }

  predicate Is3(s: bytes) {
    && |s| >= 3 && 0xE0 <= s[0] <= 0xEF && IsTail(s[1]) && IsTail(s[2])
    && (s[0] == 0xE0 ==> 0xA0 <= s[1])
    && (s[0] == 0xED ==> s[1] <= 0x9F)
  }

  predicate Is4(s: bytes) {
    && |s| >= 4 && 0xF0 <= s[0] <= 0xF4 && IsTail(s[1]) && IsTail(s[2]) && IsTail(s[3])
    && (s[0] == 0xF0 ==> 0x90 <= s[1])
    && (s[0] == 0xF4 ==> s[1] <= 0x8F)
  }

  // Length of the valid sequence s starts with; 0 if its first byte starts none.
  function SequenceLength(s: bytes): (n: nat)
    requires s != []
    ensures n <= |s| && n <= 4
  {
    if s[0] < 0x80 then 1
    else if Is2(s) then 2
    else if Is3(s) then 3
    else if Is4(s) then 4
    else 0
  }

  // utf8.DecodeRune: the rune and its width, or (RuneError, 1).
  function DecodeRune(s: bytes): (Rune, nat)
    requires s != []
  {
    if s[0] < 0x80 then (s[0] as int, 1)
    else if Is2(s) then ((s[0] as int - 0xC0) * 64 + (s[1] as int - 0x80), 2)
    else if Is3(s) then
      ((s[0] as int - 0xE0) * 4096 + (s[1] as int - 0x80) * 64 + (s[2] as int - 0x80), 3)
    else if Is4(s) then
      ((s[0] as int - 0xF0) * 262144 + (s[1] as int - 0x80) * 4096 + (s[2] as int - 0x80) * 64
       + (s[3] as int - 0x80), 4)
    else (REPLACEMENT, 1)
  }

  predicate StartsInvalid(s: bytes)
    requires s != []
  {
    SequenceLength(s) == 0
  }

  // The test the callers make to see an invalid byte; an encoded U+FFFD in the input has width 3.
  lemma InvalidIsErrorOfWidthOne(s: bytes)
    requires s != []
    ensures DecodeRune(s) == (REPLACEMENT, 1) <==> StartsInvalid(s)
    ensures !StartsInvalid(s) ==> DecodeRune(s).1 == SequenceLength(s) && IsScalar(DecodeRune(s).0)
  {
  }

  function EncodeRune(r: Rune): bytes
    requires IsScalar(r)
  {
    if r < 0x80 then [r as byte]
    else if r < 0x800 then [(0xC0 + r / 64) as byte, (0x80 + r % 64) as byte]
    else if r < 0x10000 then
      [(0xE0 + r / 4096) as byte, (0x80 + r / 64 % 64) as byte, (0x80 + r % 64) as byte]
    else
      [(0xF0 + r / 262144) as byte, (0x80 + r / 4096 % 64) as byte, (0x80 + r / 64 % 64) as byte,
       (0x80 + r % 64) as byte]
  }

  // A number and its base-64 digits, three places.
  lemma Digits(a: nat, b: nat, c: nat, d: nat, r: nat)
    requires b < 64 && c < 64 && d < 64
    requires r == a * 262144 + b * 4096 + c * 64 + d
    ensures r % 64 == d && r / 64 == a * 4096 + b * 64 + c
    ensures r / 64 % 64 == c && r / 4096 == a * 64 + b
    ensures r / 4096 % 64 == b && r / 262144 == a
  {
  }

  lemma DigitsOf(r: nat)
    ensures r == r / 262144 * 262144 + r / 4096 % 64 * 4096 + r / 64 % 64 * 64 + r % 64
    ensures r / 4096 == r / 262144 * 64 + r / 4096 % 64
    ensures r / 64 == r / 4096 * 64 + r / 64 % 64
  {
    var q1 := r / 64;
    var q2 := q1 / 64;
    var q3 := q2 / 64;
    Digits(q3, q2 % 64, q1 % 64, r % 64, r);
  }

  // Every scalar value encodes to a valid sequence that decodes to it, whatever follows.
  lemma DecodeOfEncode(r: Rune, rest: bytes)
    requires IsScalar(r)
    ensures DecodeRune(EncodeRune(r) + rest) == (r, |EncodeRune(r)|)
    ensures !StartsInvalid(EncodeRune(r) + rest)
  {
    DigitsOf(r);
    var e := EncodeRune(r);
    var s := e + rest;
    assert forall i :: 0 <= i < |e| ==> s[i] == e[i];
    if r < 0x80 {
    } else if r < 0x800 {
      assert Is2(s);
    } else if r < 0x10000 {
      assert !Is2(s) && Is3(s);
    } else {
      assert !Is2(s) && !Is3(s) && Is4(s);
    }
  }

  lemma EncodeOfDecode2(s: bytes)
    requires Is2(s)
    ensures var (r, n) := DecodeRune(s); n == 2 && 0x80 <= r < 0x800 && EncodeRune(r) == s[..2]
  {
    Digits(0, 0, s[0] as int - 0xC0, s[1] as int - 0x80, DecodeRune(s).0);
  }

  lemma EncodeOfDecode3(s: bytes)
    requires Is3(s)
    ensures var (r, n) := DecodeRune(s); n == 3 && 0x800 <= r < 0x10000 && IsScalar(r) && EncodeRune(r) == s[..3]
  {
    Digits(0, s[0] as int - 0xE0, s[1] as int - 0x80, s[2] as int - 0x80, DecodeRune(s).0);
  }

  lemma EncodeOfDecode4(s: bytes)
    requires Is4(s)
    ensures var (r, n) := DecodeRune(s); n == 4 && 0x10000 <= r <= 0x10FFFF && EncodeRune(r) == s[..4]
  {
    Digits(s[0] as int - 0xF0, s[1] as int - 0x80, s[2] as int - 0x80, s[3] as int - 0x80, DecodeRune(s).0);
  }

  // A valid sequence is the encoding of the rune it decodes to: the grammar of section 4 and the
  // encoding of section 3 describe the same byte strings.
  lemma EncodeOfDecode(s: bytes)
    requires s != [] && !StartsInvalid(s)
    ensures var (r, n) := DecodeRune(s); n <= |s| && IsScalar(r) && EncodeRune(r) == s[..n]
  {
    if s[0] < 0x80 {
    } else if Is2(s) {
      EncodeOfDecode2(s);
    } else if Is3(s) {
      EncodeOfDecode3(s);
    } else {
      EncodeOfDecode4(s);
    }
  }

  // All runes of s, each byte that starts no valid sequence replaced.
  function Runes(s: bytes): seq<Rune> {
    if s == [] then [] else [DecodeRune(s).0] + Runes(s[DecodeRune(s).1..])
  }

  function Encode(rs: seq<Rune>): bytes
    requires forall r :: r in rs ==> IsScalar(r)
  {
    if rs == [] then [] else EncodeRune(rs[0]) + Encode(rs[1..])
  }

  // s with each such byte replaced by the encoding of U+FFFD.
  function Sanitized(s: bytes): bytes {
    if s == [] then []
    else if StartsInvalid(s) then [0xEF, 0xBF, 0xBD] + Sanitized(s[1..])
    else s[..SequenceLength(s)] + Sanitized(s[SequenceLength(s)..])
  }

  predicate Valid(s: bytes) {
    s == [] || (!StartsInvalid(s) && Valid(s[SequenceLength(s)..]))
  }

  lemma {:induction false} RunesAreScalar(s: bytes)
    ensures forall r :: r in Runes(s) ==> IsScalar(r)
  {
    if s != [] {
      InvalidIsErrorOfWidthOne(s);
      RunesAreScalar(s[DecodeRune(s).1..]);
    }
  }

  lemma {:induction false} EncodeOfRunes(s: bytes)
    ensures forall r :: r in Runes(s) ==> IsScalar(r)
    ensures Encode(Runes(s)) == Sanitized(s)
  {
    RunesAreScalar(s);
    if s != [] {
      InvalidIsErrorOfWidthOne(s);
      var (r, n) := DecodeRune(s);
      EncodeOfRunes(s[n..]);
      assert Runes(s)[1..] == Runes(s[n..]);
      if !StartsInvalid(s) {
        EncodeOfDecode(s);
      }
    }
  }

  lemma {:induction false} SanitizedValid(s: bytes)
    requires Valid(s)
    ensures Sanitized(s) == s
  {
    if s != [] {
      SanitizedValid(s[SequenceLength(s)..]);
    }
  }
}
