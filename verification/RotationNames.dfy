/** File names of rotated segments (sink_dir.go): fixed-width UTC stamps, collision suffixes, and the order
    in which sort.Strings puts them. */
module RotationNames {
  import opened LogRecords

  // A UTC time as the layout 20060102T150405.000000000Z prints it.
  datatype Stamp = Stamp(year: nat, month: nat, day: nat, hour: nat, minute: nat, second: nat, nano: nat)

  predicate ValidStamp(t: Stamp) {
    && t.year < 10000 && 1 <= t.month <= 12 && 1 <= t.day <= 31
    && t.hour < 24 && t.minute < 60 && t.second < 60 && t.nano < 1_000_000_000
  }

  // Earlier in time.
  predicate Earlier(t: Stamp, u: Stamp) {
    if t.year != u.year then t.year < u.year
    else if t.month != u.month then t.month < u.month
    else if t.day != u.day then t.day < u.day
    else if t.hour != u.hour then t.hour < u.hour
    else if t.minute != u.minute then t.minute < u.minute
    else if t.second != u.second then t.second < u.second
    else t.nano < u.nano
  }

  // In the order in which the layout prints them.
  function Fields(t: Stamp): seq<nat> {
    [t.year, t.month, t.day, t.hour, t.minute, t.second, t.nano]
  }

  predicate FieldsLess(a: seq<nat>, b: seq<nat>)
    requires |a| == |b|
  {
    a != [] && (a[0] < b[0] || (a[0] == b[0] && FieldsLess(a[1..], b[1..])))
  }

  lemma FirstFieldDecides(x: nat, a: seq<nat>, y: nat, b: seq<nat>)
    requires |a| == |b|
    ensures FieldsLess([x] + a, [y] + b) <==> x < y || (x == y && FieldsLess(a, b))
  {
    assert ([x] + a)[1..] == a && ([y] + b)[1..] == b;
  }

  // The printed fields compare as the times do.
  lemma EarlierIsFieldsLess(t: Stamp, u: Stamp)
    ensures Earlier(t, u) <==> FieldsLess(Fields(t), Fields(u))
  {
    var a, b: seq<nat> := [t.nano], [u.nano];
    FirstFieldDecides(t.nano, [], u.nano, []);
    assert a == [t.nano] + [] && b == [u.nano] + [];
    hide FieldsLess;
    FirstFieldDecides(t.second, a, u.second, b);
    a, b := [t.second] + a, [u.second] + b;
    FirstFieldDecides(t.minute, a, u.minute, b);
    a, b := [t.minute] + a, [u.minute] + b;
    FirstFieldDecides(t.hour, a, u.hour, b);
    a, b := [t.hour] + a, [u.hour] + b;
    FirstFieldDecides(t.day, a, u.day, b);
    a, b := [t.day] + a, [u.day] + b;
    FirstFieldDecides(t.month, a, u.month, b);
    a, b := [t.month] + a, [u.month] + b;
    FirstFieldDecides(t.year, a, u.year, b);
    assert Fields(t) == [t.year] + a && Fields(u) == [u.year] + b;
    NothingLess();
  }

  lemma NothingLess()
    ensures !FieldsLess([], [])
  {
  }

  lemma EarlierTotal(t: Stamp, u: Stamp)
    ensures t == u || Earlier(t, u) || Earlier(u, t)
    ensures !(Earlier(t, u) && Earlier(u, t))
  {
  }

  lemma EarlierTransitive(t: Stamp, u: Stamp, v: Stamp)
    requires Earlier(t, u) && Earlier(u, v)
    ensures Earlier(t, v)
  {
  }

  /* ---- The order of sort.Strings ---- */

  predicate Less(a: string, b: string) {
    b != "" && (a == "" || a[0] < b[0] || (a[0] == b[0] && Less(a[1..], b[1..])))
  }

  lemma {:induction false} LessIrreflexive(a: string)
    ensures !Less(a, a)
  {
    if a != "" {
      LessIrreflexive(a[1..]);
    }
  }

  lemma {:induction false} LessTransitive(a: string, b: string, c: string)
    requires Less(a, b) && Less(b, c)
    ensures Less(a, c)
  {
    if a != "" && a[0] == b[0] == c[0] {
      LessTransitive(a[1..], b[1..], c[1..]);
    }
  }

  lemma {:induction false} LessTotal(a: string, b: string)
    ensures a == b || Less(a, b) || Less(b, a)
  {
    if a != "" && b != "" && a[0] == b[0] {
      LessTotal(a[1..], b[1..]);
      assert a == [a[0]] + a[1..] && b == [b[0]] + b[1..];
    }
  }

  // Of two heads of equal length the smaller decides, whatever follows.
  lemma {:induction false} LessByHead(a: string, b: string, x: string, y: string)
    requires |a| == |b| && Less(a, b)
    ensures Less(a + x, b + y)
  {
    assert (a + x)[0] == a[0] && (b + y)[0] == b[0];
    if a[0] == b[0] {
      LessByHead(a[1..], b[1..], x, y);
      assert (a + x)[1..] == a[1..] + x && (b + y)[1..] == b[1..] + y;
    }
  }

  lemma {:induction false} LessAfterPrefix(p: string, x: string, y: string)
    requires Less(x, y)
    ensures Less(p + x, p + y)
  {
    if p == "" {
      assert p + x == x && p + y == y;
    } else {
      LessAfterPrefix(p[1..], x, y);
      assert (p + x)[1..] == p[1..] + x && (p + y)[1..] == p[1..] + y;
    }
  }

  /* ---- Printing ---- */

  function Pow10(w: nat): nat {
    if w == 0 then 1 else 10 * Pow10(w - 1)
  }

  // n in w decimal digits with leading zeros.
  function Digits(n: nat, w: nat): (s: string)
    ensures |s| == w
  {
    if w == 0 then "" else Digits(n / 10, w - 1) + [('0' as int + n % 10) as char]
  }

  predicate AllDigits(s: string) {
    forall i :: 0 <= i < |s| ==> '0' <= s[i] <= '9'
  }

  lemma {:induction false} DigitsAreDigits(n: nat, w: nat)
    ensures AllDigits(Digits(n, w))
  {
    if w > 0 {
      DigitsAreDigits(n / 10, w - 1);
    }
  }

  lemma {:induction false} DigitsOrder(n: nat, m: nat, w: nat)
    requires n < m < Pow10(w)
    ensures Less(Digits(n, w), Digits(m, w))
  {
    if w > 0 {
      var x, y := [('0' as int + n % 10) as char], [('0' as int + m % 10) as char];
      if n / 10 < m / 10 {
        DigitsOrder(n / 10, m / 10, w - 1);
        LessByHead(Digits(n / 10, w - 1), Digits(m / 10, w - 1), x, y);
      } else {
        assert Less(x, y);
        LessAfterPrefix(Digits(n / 10, w - 1), x, y);
      }
    }
  }

  // A printed field: its width and the separator after it.
  datatype Field = Field(width: nat, separator: string)

  // 20060102T150405.000000000Z
  const LAYOUT: seq<Field> :=
    [Field(4, ""), Field(2, ""), Field(2, "T"), Field(2, ""), Field(2, ""), Field(2, "."), Field(9, "Z")]

  function FormatFields(values: seq<nat>, layout: seq<Field>): string
    requires |values| == |layout|
  {
    if values == [] then ""
    else Digits(values[0], layout[0].width) + (layout[0].separator + FormatFields(values[1..], layout[1..]))
  }

  function Format(t: Stamp): string {
    FormatFields(Fields(t), LAYOUT)
  }

  // The n-th name tried for a rotation at t.
  datatype Key = Key(t: Stamp, n: nat)

  predicate ValidKey(k: Key) {
    ValidStamp(k.t) && k.n < 1000
  }

  function Name(k: Key): string {
    Format(k.t) + Suffix(k.n)
  }

  function Suffix(n: nat): string {
    if n == 0 then ".log" else "~" + Digits(n, 3) + ".log"
  }

  predicate KeyLess(k: Key, l: Key) {
    Earlier(k.t, l.t) || (k.t == l.t && k.n < l.n)
  }

  /* ---- The order of names is the order of rotations ---- */

  predicate InWidth(values: seq<nat>, layout: seq<Field>)
    requires |values| == |layout|
  {
    forall i :: 0 <= i < |values| ==> values[i] < Pow10(layout[i].width)
  }

  lemma {:induction false} FieldsOrder(a: seq<nat>, b: seq<nat>, layout: seq<Field>)
    requires |a| == |b| == |layout| && InWidth(a, layout) && InWidth(b, layout) && FieldsLess(a, b)
    ensures Less(FormatFields(a, layout), FormatFields(b, layout))
    ensures |FormatFields(a, layout)| == |FormatFields(b, layout)|
  {
    var w, sep := layout[0].width, layout[0].separator;
    var x, y := FormatFields(a[1..], layout[1..]), FormatFields(b[1..], layout[1..]);
    FieldsLength(a[1..], b[1..], layout[1..]);
    if a[0] < b[0] {
      DigitsOrder(a[0], b[0], w);
      LessByHead(Digits(a[0], w), Digits(b[0], w), sep + x, sep + y);
    } else {
      FieldsOrder(a[1..], b[1..], layout[1..]);
      LessAfterPrefix(sep, x, y);
      LessAfterPrefix(Digits(a[0], w), sep + x, sep + y);
    }
  }

  lemma {:induction false} FieldsLength(a: seq<nat>, b: seq<nat>, layout: seq<Field>)
    requires |a| == |b| == |layout|
    ensures |FormatFields(a, layout)| == |FormatFields(b, layout)|
  {
    if a != [] {
      FieldsLength(a[1..], b[1..], layout[1..]);
    }
  }

  lemma PowersOfTen()
    ensures Pow10(2) == 100 && Pow10(3) == 1000 && Pow10(4) == 10000 && Pow10(9) == 1_000_000_000
  {
    assert Pow10(3) == 1000;
    assert Pow10(6) == 1_000_000 by {
      assert Pow10(5) == 100_000;
    }
  }

  // Rotations at different times, or later attempts at the same time, get later names.
  lemma NamesInOrder(k: Key, l: Key)
    requires ValidKey(k) && ValidKey(l) && KeyLess(k, l)
    ensures Less(Name(k), Name(l))
  {
    PowersOfTen();
    FieldsLength(Fields(k.t), Fields(l.t), LAYOUT);
    if Earlier(k.t, l.t) {
      EarlierIsFieldsLess(k.t, l.t);
      FieldsOrder(Fields(k.t), Fields(l.t), LAYOUT);
      LessByHead(Format(k.t), Format(l.t), Suffix(k.n), Suffix(l.n));
    } else {
      if k.n > 0 {
        DigitsOrder(k.n, l.n, 3);
        LessByHead(Digits(k.n, 3), Digits(l.n, 3), ".log", ".log");
        LessAfterPrefix("~", Digits(k.n, 3) + ".log", Digits(l.n, 3) + ".log");
        Assoc("~", Digits(k.n, 3), ".log");
        Assoc("~", Digits(l.n, 3), ".log");
      } else {
        assert Suffix(0)[0] == '.' && Suffix(l.n)[0] == '~';
      }
      LessAfterPrefix(Format(k.t), Suffix(k.n), Suffix(l.n));
    }
  }

  lemma KeysTotal(k: Key, l: Key)
    ensures k == l || KeyLess(k, l) || KeyLess(l, k)
    ensures !KeyLess(k, k)
  {
    EarlierTotal(k.t, l.t);
  }

  lemma KeysTransitive(k: Key, l: Key, m: Key)
    requires KeyLess(k, l) && KeyLess(l, m)
    ensures KeyLess(k, m)
  {
    if Earlier(k.t, l.t) && Earlier(l.t, m.t) {
      EarlierTransitive(k.t, l.t, m.t);
    }
  }

  // The order of names is exactly the order of keys; in particular names are distinct.
  lemma NamesReflectOrder(k: Key, l: Key)
    requires ValidKey(k) && ValidKey(l)
    ensures Less(Name(k), Name(l)) <==> KeyLess(k, l)
    ensures Name(k) == Name(l) <==> k == l
  {
    KeysTotal(k, l);
    LessIrreflexive(Name(k));
    if KeyLess(k, l) {
      NamesInOrder(k, l);
    } else if KeyLess(l, k) {
      NamesInOrder(l, k);
      if Less(Name(k), Name(l)) {
        LessTransitive(Name(k), Name(l), Name(k));
      }
    }
  }

  /* ---- Recognising rotated segments ---- */

  // isRotationName
  predicate IsRotationName(name: string) {
    if |name| < 4 || name[|name| - 4..] != ".log" then false
    else
      var stem := name[..|name| - 4];
      if |stem| == 30 then stem[26] == '~' && AllDigits(stem[27..]) && IsStampText(stem[..26])
      else IsStampText(stem)
  }

  predicate IsStampText(stem: string) {
    && |stem| == 26
    && AllDigits(stem[..8]) && stem[8] == 'T' && AllDigits(stem[9..15]) && stem[15] == '.'
    && AllDigits(stem[16..25]) && stem[25] == 'Z'
  }

  lemma FieldStep(values: seq<nat>, layout: seq<Field>, i: nat)
    requires |values| == |layout| && i < |values|
    ensures FormatFields(values[i..], layout[i..]) ==
            Digits(values[i], layout[i].width) + (layout[i].separator + FormatFields(values[i + 1..], layout[i + 1..]))
  {
    assert values[i..][1..] == values[i + 1..] && layout[i..][1..] == layout[i + 1..];
  }

  // The printed text in one piece.
  lemma FormatText(t: Stamp)
    ensures Format(t) == Digits(t.year, 4) + Digits(t.month, 2) + Digits(t.day, 2) + "T"
                         + Digits(t.hour, 2) + Digits(t.minute, 2) + Digits(t.second, 2) + "." + Digits(t.nano, 9) + "Z"
  {
    var f, l := Fields(t), LAYOUT;
    assert f[0..] == f && l[0..] == l && f[7..] == [] && l[7..] == [];
    FieldStep(f, l, 6);
    FieldStep(f, l, 5);
    FieldStep(f, l, 4);
    FieldStep(f, l, 3);
    FieldStep(f, l, 2);
    FieldStep(f, l, 1);
    FieldStep(f, l, 0);
    Nested(Digits(t.year, 4), Digits(t.month, 2), Digits(t.day, 2), Digits(t.hour, 2), Digits(t.minute, 2),
           Digits(t.second, 2), Digits(t.nano, 9));
  }

  lemma Nested(y: string, mo: string, d: string, h: string, mi: string, sec: string, n: string)
    ensures y + ("" + (mo + ("" + (d + ("T" + (h + ("" + (mi + ("" + (sec + ("." + (n + ("Z" + "")))))))))))))
         == y + mo + d + "T" + h + mi + sec + "." + n + "Z"
  {
  }

  function Value(s: string): nat
    requires AllDigits(s)
  {
    if s == "" then 0 else Value(s[..|s| - 1]) * 10 + (s[|s| - 1] as int - '0' as int)
  }

  lemma {:induction false} DigitsValue(n: nat, w: nat)
    requires n < Pow10(w)
    ensures AllDigits(Digits(n, w)) && Value(Digits(n, w)) == n
  {
    DigitsAreDigits(n, w);
    if w > 0 {
      DigitsValue(n / 10, w - 1);
      assert Digits(n, w)[..w - 1] == Digits(n / 10, w - 1);
    }
  }

  // A number in a certain place of a text.
  ghost predicate Reads(s: string, from: nat, to: nat, n: nat) {
    from <= to <= |s| && AllDigits(s[from..to]) && Value(s[from..to]) == n
  }

  // The text says what time it was: year, month and day, then hour, minute, second and fraction.
  lemma FormatReads(t: Stamp)
    requires ValidStamp(t)
    ensures var s := Format(t);
            && |s| == 26 && s[8] == 'T' && s[15] == '.' && s[25] == 'Z'
            && Reads(s, 0, 4, t.year) && Reads(s, 4, 6, t.month) && Reads(s, 6, 8, t.day)
            && Reads(s, 9, 11, t.hour) && Reads(s, 11, 13, t.minute) && Reads(s, 13, 15, t.second) && Reads(s, 16, 25, t.nano)
  {
    PowersOfTen();
    FormatText(t);
    DigitsValue(t.year, 4);
    DigitsValue(t.month, 2);
    DigitsValue(t.day, 2);
    DigitsValue(t.hour, 2);
    DigitsValue(t.minute, 2);
    DigitsValue(t.second, 2);
    DigitsValue(t.nano, 9);
    hide *;
    Places(Digits(t.year, 4), Digits(t.month, 2), Digits(t.day, 2), Digits(t.hour, 2), Digits(t.minute, 2),
           Digits(t.second, 2), Digits(t.nano, 9), Format(t));
    ReadsParts(t, Format(t));
  }

  lemma ReadsParts(t: Stamp, s: string)
    requires |s| == 26 && AllDigits(Digits(t.year, 4)) && AllDigits(Digits(t.month, 2)) && AllDigits(Digits(t.day, 2))
    requires AllDigits(Digits(t.hour, 2)) && AllDigits(Digits(t.minute, 2)) && AllDigits(Digits(t.second, 2))
    requires AllDigits(Digits(t.nano, 9))
    requires Value(Digits(t.year, 4)) == t.year && Value(Digits(t.month, 2)) == t.month && Value(Digits(t.day, 2)) == t.day
    requires Value(Digits(t.hour, 2)) == t.hour && Value(Digits(t.minute, 2)) == t.minute
    requires Value(Digits(t.second, 2)) == t.second && Value(Digits(t.nano, 9)) == t.nano
    requires s[0..4] == Digits(t.year, 4) && s[4..6] == Digits(t.month, 2) && s[6..8] == Digits(t.day, 2)
    requires s[9..11] == Digits(t.hour, 2) && s[11..13] == Digits(t.minute, 2) && s[13..15] == Digits(t.second, 2)
    requires s[16..25] == Digits(t.nano, 9)
    ensures Reads(s, 0, 4, t.year) && Reads(s, 4, 6, t.month) && Reads(s, 6, 8, t.day)
    ensures Reads(s, 9, 11, t.hour) && Reads(s, 11, 13, t.minute) && Reads(s, 13, 15, t.second) && Reads(s, 16, 25, t.nano)
  {
    hide AllDigits, Value, Digits;
  }

  lemma Places(y: string, mo: string, d: string, h: string, mi: string, sec: string, n: string, s: string)
    requires |y| == 4 && |mo| == |d| == |h| == |mi| == |sec| == 2 && |n| == 9
    requires s == y + mo + d + "T" + h + mi + sec + "." + n + "Z"
    ensures |s| == 26 && s[8] == 'T' && s[15] == '.' && s[25] == 'Z'
    ensures s[0..4] == y && s[4..6] == mo && s[6..8] == d
    ensures s[9..11] == h && s[11..13] == mi && s[13..15] == sec && s[16..25] == n
  {
  }

  // The name says which attempt it was: none for the first, then a tilde and three digits.
  lemma NameReads(k: Key)
    requires ValidKey(k)
    ensures var name := Name(k);
            && |name| == (if k.n == 0 then 30 else 34) && name[..26] == Format(k.t) && name[|name| - 4..] == ".log"
            && (k.n > 0 ==> name[26] == '~' && Reads(name, 27, 30, k.n))
  {
    PowersOfTen();
    FormatReads(k.t);
    if k.n > 0 {
      DigitsValue(k.n, 3);
      assert Name(k) == Format(k.t) + "~" + Digits(k.n, 3) + ".log";
      assert Name(k)[27..30] == Digits(k.n, 3);
    }
  }

  lemma FormatIsStampText(t: Stamp)
    ensures IsStampText(Format(t))
  {
    FormatText(t);
    DigitsAreDigits(t.year, 4);
    DigitsAreDigits(t.month, 2);
    DigitsAreDigits(t.day, 2);
    DigitsAreDigits(t.hour, 2);
    DigitsAreDigits(t.minute, 2);
    DigitsAreDigits(t.second, 2);
    DigitsAreDigits(t.nano, 9);
    DigitsJoin(Digits(t.year, 4), Digits(t.month, 2), Digits(t.day, 2));
    DigitsJoin(Digits(t.hour, 2), Digits(t.minute, 2), Digits(t.second, 2));
    hide *;
    var date := Digits(t.year, 4) + Digits(t.month, 2) + Digits(t.day, 2);
    var time := Digits(t.hour, 2) + Digits(t.minute, 2) + Digits(t.second, 2);
    Regrouped(date, Digits(t.hour, 2), Digits(t.minute, 2), Digits(t.second, 2), Digits(t.nano, 9));
    PartsAreStampText(date, time, Digits(t.nano, 9));
  }

  lemma DigitsJoin(a: string, b: string, c: string)
    requires AllDigits(a) && AllDigits(b) && AllDigits(c)
    ensures AllDigits(a + b + c)
  {
  }

  lemma Regrouped(date: string, h: string, mi: string, sec: string, n: string)
    ensures date + "T" + h + mi + sec + "." + n + "Z" == date + "T" + (h + mi + sec) + "." + n + "Z"
  {
  }

  ghost predicate AreParts(date: string, time: string, nano: string) {
    |date| == 8 && |time| == 6 && |nano| == 9 && AllDigits(date) && AllDigits(time) && AllDigits(nano)
  }

  lemma PartsAreStampText(date: string, time: string, nano: string)
    requires AreParts(date, time, nano)
    ensures IsStampText(date + "T" + time + "." + nano + "Z")
  {
    var s := date + "T" + time + "." + nano + "Z";
    assert s[..8] == date && s[9..15] == time && s[16..25] == nano;
  }

  lemma StampTextHasParts(s: string) returns (date: string, time: string, nano: string)
    requires IsStampText(s)
    ensures AreParts(date, time, nano) && s == date + "T" + time + "." + nano + "Z"
  {
    date, time, nano := s[..8], s[9..15], s[16..25];
  }

  // The suffix of a second attempt, or none.
  ghost predicate IsAttempt(a: string) {
    a == "" || (|a| == 4 && a[0] == '~' && AllDigits(a[1..]))
  }

  ghost predicate HasForm(name: string, date: string, time: string, nano: string, attempt: string) {
    AreParts(date, time, nano) && IsAttempt(attempt) && name == date + "T" + time + "." + nano + "Z" + attempt + ".log"
  }

  // Exactly which names retention takes for rotated segments: eight digits, T, six digits, a dot, nine digits, Z,
  // possibly a tilde and three digits, and .log.
  lemma RecognisedIff(name: string)
    ensures IsRotationName(name) <==> exists date, time, nano, attempt :: HasForm(name, date, time, nano, attempt)
  {
    if IsRotationName(name) {
      var stem := name[..|name| - 4];
      var stamp, attempt := stem[..26], stem[26..];
      assert stem == stamp + attempt && name == stem + ".log";
      assert |stem| == 26 ==> stamp == stem;
      assert |attempt| == 4 ==> attempt[1..] == stem[27..];
      var date, time, nano := StampTextHasParts(stamp);
      assert HasForm(name, date, time, nano, attempt);
    }
    if date, time, nano, attempt :| HasForm(name, date, time, nano, attempt) {
      var stamp := date + "T" + time + "." + nano + "Z";
      PartsAreStampText(date, time, nano);
      assert name == stamp + attempt + ".log" && name[|name| - 4..] == ".log" && name[..|name| - 4] == stamp + attempt;
      if attempt == "" {
        assert stamp + attempt == stamp;
      } else {
        assert (stamp + attempt)[..26] == stamp && (stamp + attempt)[27..] == attempt[1..];
      }
    }
  }

  // Names that look alike are none.
  lemma UnrelatedNames()
    ensures !IsRotationName("app.log") && !IsRotationName("lock")
    ensures !IsRotationName("@20260503T151459.815047695Z.s") && !IsRotationName("20260503T151459.815047695Z.tmp")
    ensures !IsRotationName("20260503T151459.815047695Z~001.tmp") && !IsRotationName("20260503T151459.815047695Zextra.log")
  {
    var extra := "20260503T151459.815047695Zextra.log";
    assert |extra| == 35;
  }

  // Retention recognises every name a rotation can be given, and never the live file.
  lemma RotationNamesAreRecognised(k: Key)
    requires ValidKey(k)
    ensures IsRotationName(Name(k))
    ensures !IsRotationName("current")
  {
    FormatIsStampText(k.t);
    var name := Name(k);
    if k.n == 0 {
      assert name[|name| - 4..] == ".log" && name[..|name| - 4] == Format(k.t);
    } else {
      DigitsAreDigits(k.n, 3);
      var stem := Format(k.t) + "~" + Digits(k.n, 3);
      assert name == stem + ".log";
      assert name[|name| - 4..] == ".log" && name[..|name| - 4] == stem;
      assert stem[..26] == Format(k.t) && stem[27..] == Digits(k.n, 3);
    }
  }
}
