/** The values that travel through the pipeline (record.go), and byte-string helpers. */
module LogRecords {

  newtype byte = x: int | 0 <= x < 256

  type bytes = seq<byte>

  const LF: byte := 10
  const CR: byte := 13
  const ESC: byte := 27
  const BACKSLASH: byte := 0x5c

  datatype Option<+T> = None | Some(value: T)

  datatype RecordEnd = Newline | Timeout | EOF | MaxBytes | Internal

  // Times and metadata are carried along and never inspected.
  datatype RecordMeta = RecordMeta(
    time: int, end: RecordEnd, source: string, continued: bool, metadata: map<string, string>)

  datatype Record = Record(
    time: int, line: bytes, seqNo: nat, end: RecordEnd, source: string, continued: bool,
    internalEvent: string, message: string,
    droppedRecords: nat, droppedBytes: nat, reason: string,
    metadata: map<string, string>)

  // Go's zero Record, stored in a ring slot that holds nothing.
  const ZERO_RECORD: Record :=
    Record(0, [], 0, Newline, "", false, "", "", 0, 0, "", map[])

  // The record an accepted push stores.
  function FromMeta(meta: RecordMeta, line: bytes, seqNo: nat): Record {
    ZERO_RECORD.(time := meta.time, line := line, seqNo := seqNo, end := meta.end,
                 source := meta.source, continued := meta.continued, metadata := meta.metadata)
  }

  // Total number of line bytes.
  function Bytes(rs: seq<Record>): nat {
    BytesUpTo(rs, |rs|)
  }

  function BytesUpTo(rs: seq<Record>, n: nat): nat
    requires n <= |rs|
  {
    if n == 0 then 0 else BytesUpTo(rs, n - 1) + |rs[n - 1].line|
  }

  lemma {:induction false} BytesUpToConcat(a: seq<Record>, b: seq<Record>, n: nat)
    requires n <= |a| + |b|
    ensures BytesUpTo(a + b, n) == if n <= |a| then BytesUpTo(a, n) else Bytes(a) + BytesUpTo(b, n - |a|)
  {
    if n > 0 {
      BytesUpToConcat(a, b, n - 1);
    }
  }

  lemma BytesConcat(a: seq<Record>, b: seq<Record>)
    ensures Bytes(a + b) == Bytes(a) + Bytes(b)
  {
    BytesUpToConcat(a, b, |a + b|);
  }

  lemma BytesOne(r: Record)
    ensures Bytes([r]) == |r.line|
  {
    assert BytesUpTo([r], 0) == 0;
  }

  lemma BytesSnoc(a: seq<Record>, r: Record)
    ensures Bytes(a + [r]) == Bytes(a) + |r.line|
  {
    BytesOne(r);
    BytesConcat(a, [r]);
  }

  lemma BytesHead(rs: seq<Record>)
    requires rs != []
    ensures Bytes(rs) == |rs[0].line| + Bytes(rs[1..])
  {
    assert rs == [rs[0]] + rs[1..];
    BytesOne(rs[0]);
    BytesConcat([rs[0]], rs[1..]);
  }

  // The parts one after the other.
  function Flatten<T>(parts: seq<seq<T>>): seq<T> {
    if parts == [] then [] else parts[0] + Flatten(parts[1..])
  }

  lemma FlattenOne<T>(part: seq<T>)
    ensures Flatten([part]) == part
  {
    assert [part][1..] == [] && part + [] == part;
  }

  lemma FlattenHead<T>(part: seq<T>, parts: seq<seq<T>>)
    ensures Flatten([part] + parts) == part + Flatten(parts)
  {
    assert ([part] + parts)[1..] == parts;
  }

  lemma {:induction false} FlattenConcat<T>(a: seq<seq<T>>, b: seq<seq<T>>)
    ensures Flatten(a + b) == Flatten(a) + Flatten(b)
  {
    if a == [] {
      assert a + b == b && [] + Flatten(b) == Flatten(b);
    } else {
      hide Flatten;
      FlattenConcat(a[1..], b);
      assert a == [a[0]] + a[1..] && a + b == [a[0]] + (a[1..] + b);
      FlattenHead(a[0], a[1..]);
      FlattenHead(a[0], a[1..] + b);
      Assoc(a[0], Flatten(a[1..]), Flatten(b));
    }
  }

  lemma FlattenSnoc<T>(parts: seq<seq<T>>, part: seq<T>)
    ensures Flatten(parts + [part]) == Flatten(parts) + part
  {
    FlattenConcat(parts, [part]);
    FlattenOne(part);
  }

  lemma Assoc<T>(a: seq<T>, b: seq<T>, c: seq<T>)
    ensures a + (b + c) == a + b + c
  {
  }

  // Taking and dropping commute.
  lemma TakeThenDrop<T>(s: seq<T>, n: nat, k: nat)
    requires k <= n <= |s|
    ensures s[..n][k..] == s[k..][..n - k]
  {
  }

  lemma {:induction false} SubsetSize<T>(a: set<T>, b: set<T>)
    requires a <= b
    ensures |a| <= |b|
  {
    if a != {} {
      var x :| x in a;
      SubsetSize(a - {x}, b - {x});
    }
  }

  // Keeps the elements of b selected by dropping others: a is what remains.
  ghost predicate IsSubsequence<T>(a: seq<T>, b: seq<T>) {
    if a == [] then true
    else if b == [] then false
    else if a[0] == b[0] && IsSubsequence(a[1..], b[1..]) then true
    else IsSubsequence(a, b[1..])
  }

  lemma {:induction false} SubsequenceAppend<T>(a: seq<T>, b: seq<T>, c: seq<T>, d: seq<T>)
    requires IsSubsequence(a, b) && IsSubsequence(c, d)
    ensures IsSubsequence(a + c, b + d)
    decreases |b|
  {
    if a == [] {
      assert a + c == c;
      SubsequenceSkip(c, b, d);
    } else if a[0] == b[0] && IsSubsequence(a[1..], b[1..]) {
      SubsequenceAppend(a[1..], b[1..], c, d);
      assert (a + c)[1..] == a[1..] + c && (b + d)[1..] == b[1..] + d;
    } else {
      SubsequenceAppend(a, b[1..], c, d);
      assert (b + d)[1..] == b[1..] + d;
      SubsequenceSkip(a + c, [b[0]], b[1..] + d);
      assert [b[0]] + (b[1..] + d) == b + d;
    }
  }

  lemma {:induction false} SubsequenceSkip<T>(c: seq<T>, b: seq<T>, d: seq<T>)
    requires IsSubsequence(c, d)
    ensures IsSubsequence(c, b + d)
  {
    if b == [] {
      assert b + d == d;
    } else {
      SubsequenceSkip(c, b[1..], d);
      assert (b + d)[1..] == b[1..] + d;
      SubsequenceSkipOne(c, b + d);
    }
  }

  lemma {:induction false} SubsequenceSkipOne<T>(c: seq<T>, d: seq<T>)
    requires d != [] && IsSubsequence(c, d[1..])
    ensures IsSubsequence(c, d)
  {
  }
}
