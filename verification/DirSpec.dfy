/** What rotation and retention of sink_dir.go do to a directory, a map from file names to contents, and
    which rotated files a directory holds. */
module DirSpec {
  import opened LogRecords
  import N = RotationNames

  const CURRENT := "current"

  datatype Config = Config(maxBytes: nat, maxFiles: nat)

  // A rotated file: its key and the formatted records it holds.
  datatype Segment = Segment(key: N.Key, records: seq<bytes>)

  function Parts(ss: seq<Segment>): (parts: seq<seq<bytes>>)
    ensures |parts| == |ss| && forall i :: 0 <= i < |ss| ==> parts[i] == ss[i].records
  {
    seq(|ss|, i requires 0 <= i < |ss| => ss[i].records)
  }

  // The records of the segments, in order of rotation.
  function RecordsOf(ss: seq<Segment>): seq<bytes> {
    Flatten(Parts(ss))
  }

  lemma RecordsConcat(a: seq<Segment>, b: seq<Segment>)
    ensures RecordsOf(a + b) == RecordsOf(a) + RecordsOf(b)
  {
    assert Parts(a + b) == Parts(a) + Parts(b);
    FlattenConcat(Parts(a), Parts(b));
  }

  lemma RecordsSnoc(ss: seq<Segment>, s: Segment)
    ensures RecordsOf(ss + [s]) == RecordsOf(ss) + s.records
  {
    RecordsConcat(ss, [s]);
    assert Parts([s]) == [s.records];
    FlattenOne(s.records);
  }

  /* ---- Sorted name lists ---- */

  predicate Sorted(names: seq<string>) {
    forall i, j :: 0 <= i < j < |names| ==> N.Less(names[i], names[j])
  }

  // There is only one sorted listing of a set of names.
  lemma {:induction false} SortedUnique(a: seq<string>, b: seq<string>)
    requires Sorted(a) && Sorted(b) && forall x :: x in a <==> x in b
    ensures a == b
  {
    assert |a| > 0 ==> a[0] in b;
    assert |b| > 0 ==> b[0] in a;
    if a != [] {
      FirstsAgree(a, b);
      forall x ensures x in a[1..] <==> x in b[1..] {
        N.LessIrreflexive(a[0]);
        assert x in a[1..] <==> x in a && x != a[0] by { TailMembers(a, x); }
        assert x in b[1..] <==> x in b && x != b[0] by { TailMembers(b, x); }
      }
      SortedUnique(a[1..], b[1..]);
      assert a == [a[0]] + a[1..] && b == [b[0]] + b[1..];
    }
  }

  lemma TailMembers(a: seq<string>, x: string)
    requires Sorted(a) && a != []
    ensures x in a[1..] <==> x in a && x != a[0]
  {
    N.LessIrreflexive(a[0]);
  }

  lemma FirstsAgree(a: seq<string>, b: seq<string>)
    requires Sorted(a) && Sorted(b) && a != [] && b != [] && forall x :: x in a <==> x in b
    ensures a[0] == b[0]
  {
    assert a[0] in b && b[0] in a;
    if a[0] != b[0] {
      assert N.Less(b[0], a[0]) && N.Less(a[0], b[0]);
      N.LessTransitive(a[0], b[0], a[0]);
      N.LessIrreflexive(a[0]);
    }
  }

  ghost predicate IsLeast(m: string, s: set<string>) {
    m in s && forall x :: x in s && x != m ==> N.Less(m, x)
  }

  lemma {:induction false} HasLeast(s: set<string>) returns (m: string)
    requires s != {}
    ensures IsLeast(m, s)
  {
    var y :| y in s;
    if s == {y} {
      m := y;
    } else {
      m := HasLeast(s - {y});
      N.LessTotal(m, y);
      if N.Less(y, m) {
        forall x | x in s && x != y ensures N.Less(y, x) {
          if x != m {
            N.LessTransitive(y, m, x);
          }
        }
        m := y;
      }
    }
  }

  lemma LeastExists(s: set<string>)
    requires s != {}
    ensures exists m :: IsLeast(m, s)
  {
    var m := HasLeast(s);
  }

  // The one sorted listing of a set of names.
  ghost function SortedNames(s: set<string>): (names: seq<string>)
    ensures Sorted(names) && forall x :: x in names <==> x in s
    ensures |names| == |s|
    decreases |s|
  {
    if s == {} then []
    else
      LeastExists(s);
      var m :| IsLeast(m, s);
      var rest := SortedNames(s - {m});
      SortedCons(m, rest, s);
      [m] + rest
  }

  lemma SortedCons(m: string, rest: seq<string>, s: set<string>)
    requires IsLeast(m, s) && Sorted(rest) && forall x :: x in rest <==> x in s - {m}
    ensures Sorted([m] + rest) && forall x :: x in [m] + rest <==> x in s
  {
    var all := [m] + rest;
    forall j | 0 < j < |all| ensures N.Less(m, all[j]) {
      assert all[j] == rest[j - 1] && rest[j - 1] in rest;
    }
  }

  // sort.Strings on the names of a set.
  method SortNames(s: set<string>) returns (names: seq<string>)
    ensures Sorted(names) && forall x :: x in names <==> x in s
  {
    names := [];
    var left := s;
    while left != {}
      invariant left <= s && Sorted(names)
      invariant forall x :: x in names <==> x in s && x !in left
      invariant forall i, x :: 0 <= i < |names| && x in left ==> N.Less(names[i], x)
      decreases |left|
    {
      ghost var least := HasLeast(left);
      var m :| m in left && forall x :: x in left && x != m ==> N.Less(m, x);
      names := names + [m];
      left := left - {m};
    }
  }

  /* ---- What is on disk ---- */

  // Rotations are in name order; a second attempt at one time follows the first directly, and happens
  // only without retention.
  ghost predicate KeysOk(ss: seq<Segment>, maxFiles: nat) {
    && (forall i :: 0 <= i < |ss| ==> N.ValidKey(ss[i].key))
    && (forall i, j :: 0 <= i < j < |ss| ==> N.KeyLess(ss[i].key, ss[j].key))
    && (forall j :: 0 <= j < |ss| && ss[j].key.n > 0 ==>
          maxFiles == 0 && j > 0 && ss[j - 1].key == N.Key(ss[j].key.t, ss[j].key.n - 1))
  }

  // The rotated files are exactly the segments from the first kept one on, with their contents.
  ghost predicate OnDisk(files: map<string, bytes>, ss: seq<Segment>, first: nat) {
    && (forall j :: first <= j < |ss| ==>
          N.Name(ss[j].key) in files && files[N.Name(ss[j].key)] == Flatten(ss[j].records))
    && (forall name :: name in files && N.IsRotationName(name) ==> IsKept(name, ss, first))
  }

  ghost predicate IsKept(name: string, ss: seq<Segment>, first: nat) {
    exists j :: first <= j < |ss| && name == N.Name(ss[j].key)
  }

  // Only a single record can exceed the limit.
  ghost predicate SizeOk(rs: seq<bytes>, maxBytes: nat) {
    |Flatten(rs)| <= maxBytes || |rs| == 1
  }

  function Names(ss: seq<Segment>): (ns: seq<string>)
    ensures |ns| == |ss|
    ensures forall j :: 0 <= j < |ss| ==> ns[j] == N.Name(ss[j].key)
  {
    seq(|ss|, j requires 0 <= j < |ss| => N.Name(ss[j].key))
  }

  // The listing the retention works on: the kept segments, oldest first.
  lemma ListingIsKept(files: map<string, bytes>, ss: seq<Segment>, first: nat, maxFiles: nat, names: seq<string>)
    requires KeysOk(ss, maxFiles) && OnDisk(files, ss, first) && first <= |ss|
    requires Sorted(names) && forall x :: x in names <==> x in files && N.IsRotationName(x)
    ensures names == Names(ss[first..])
  {
    var kept := Names(ss[first..]);
    forall i, j | 0 <= i < j < |kept| ensures N.Less(kept[i], kept[j]) {
      N.NamesInOrder(ss[first + i].key, ss[first + j].key);
    }
    forall x ensures x in kept <==> x in files && N.IsRotationName(x) {
      if x in kept {
        var j :| 0 <= j < |kept| && kept[j] == x;
        N.RotationNamesAreRecognised(ss[first + j].key);
      }
      if x in files && N.IsRotationName(x) {
        var j :| first <= j < |ss| && x == N.Name(ss[j].key);
        assert kept[j - first] == x;
      }
    }
    SortedUnique(names, kept);
  }

  // The live file is none of the rotated ones.
  lemma CurrentIsSeparate(files: map<string, bytes>, ss: seq<Segment>, first: nat, maxFiles: nat, data: bytes)
    requires KeysOk(ss, maxFiles) && OnDisk(files, ss, first)
    ensures OnDisk(files[CURRENT := data], ss, first)
    ensures OnDisk(files - {CURRENT}, ss, first)
  {
    forall j | first <= j < |ss| ensures N.Name(ss[j].key) != CURRENT {
      N.RotationNamesAreRecognised(ss[j].key);
    }
    forall name | name in files[CURRENT := data] && N.IsRotationName(name) ensures IsKept(name, ss, first) {
      NotRotation();
    }
  }

  lemma NotRotation()
    ensures !N.IsRotationName(CURRENT)
  {
  }

  // Renaming the live file to a new, later name.
  lemma RenameAddsSegment(files: map<string, bytes>, ss: seq<Segment>, first: nat, maxFiles: nat, s: Segment)
    requires KeysOk(ss + [s], maxFiles) && OnDisk(files, ss, first) && first <= |ss|
    ensures OnDisk(files[N.Name(s.key) := Flatten(s.records)], ss + [s], first)
  {
    var all := ss + [s];
    forall j | first <= j < |ss| ensures N.Name(all[j].key) != N.Name(s.key) {
      assert all[|ss|] == s;
      N.NamesInOrder(all[j].key, s.key);
      N.LessIrreflexive(N.Name(s.key));
    }
    forall name | name in files[N.Name(s.key) := Flatten(s.records)] && N.IsRotationName(name)
      ensures IsKept(name, all, first)
    {
      if name == N.Name(s.key) {
        assert all[|ss|] == s;
      } else {
        var j :| first <= j < |ss| && name == N.Name(ss[j].key);
        assert all[j] == ss[j];
      }
    }
  }

  /* ---- Which name a rotation gets ---- */

  // The clock has not gone back, and with retention on it has moved on.
  ghost predicate ClockOk(ss: seq<Segment>, now: N.Stamp, maxFiles: nat) {
    && N.ValidStamp(now)
    && (ss != [] ==>
          var last := ss[|ss| - 1].key.t;
          N.Earlier(last, now) || (maxFiles == 0 && last == now))
  }

  // i is the first free attempt at now.
  ghost predicate FirstFree(files: map<string, bytes>, now: N.Stamp, i: nat) {
    && i < 1000 && N.Name(N.Key(now, i)) !in files
    && AllTaken(files, now, i)
  }

  ghost predicate AllTaken(files: map<string, bytes>, now: N.Stamp, i: nat) {
    forall j :: 0 <= j < i ==> N.Name(N.Key(now, j)) in files
  }

  lemma OnDiskHasKey(files: map<string, bytes>, ss: seq<Segment>, first: nat, maxFiles: nat, k: N.Key) returns (j: nat)
    requires KeysOk(ss, maxFiles) && OnDisk(files, ss, first) && N.ValidKey(k) && N.Name(k) in files
    ensures first <= j < |ss| && ss[j].key == k
  {
    N.RotationNamesAreRecognised(k);
    j :| first <= j < |ss| && N.Name(k) == N.Name(ss[j].key);
    N.NamesReflectOrder(k, ss[j].key);
  }

  // Without retention all earlier attempts at the last stamp are there.
  lemma {:induction false} EarlierAttempts(ss: seq<Segment>, j: nat, n: nat)
    requires KeysOk(ss, 0) && j < |ss| && n <= ss[j].key.n
    ensures exists i :: 0 <= i <= j && ss[i].key == N.Key(ss[j].key.t, n)
    decreases j
  {
    if n < ss[j].key.n {
      EarlierAttempts(ss, j - 1, n);
    } else {
      assert ss[j].key == N.Key(ss[j].key.t, n);
    }
  }

  // The first free name sorts after all segments and keeps the attempts contiguous.
  lemma NewKeyIsLast(files: map<string, bytes>, ss: seq<Segment>, first: nat, maxFiles: nat, now: N.Stamp, i: nat,
                     records: seq<bytes>)
    requires KeysOk(ss, maxFiles) && OnDisk(files, ss, first) && (maxFiles == 0 ==> first == 0)
    requires ClockOk(ss, now, maxFiles) && FirstFree(files, now, i)
    ensures KeysOk(ss + [Segment(N.Key(now, i), records)], maxFiles)
  {
    hide N.Name, N.IsRotationName, N.Earlier, N.ValidStamp, OnDisk, IsKept, Flatten;
    if ss == [] {
      NoRotationYet(files, first, maxFiles, now, i);
    } else {
      var last := ss[|ss| - 1].key;
      if N.Earlier(last.t, now) {
        FreshStamp(files, ss, first, maxFiles, now, i);
      } else {
        SameStamp(files, ss, now, i);
      }
      AppendKey(ss, maxFiles, Segment(N.Key(now, i), records));
    }
  }

  lemma AppendKey(ss: seq<Segment>, maxFiles: nat, s: Segment)
    requires KeysOk(ss, maxFiles) && ss != [] && N.ValidKey(s.key) && N.KeyLess(ss[|ss| - 1].key, s.key)
    requires s.key.n > 0 ==> maxFiles == 0 && ss[|ss| - 1].key == N.Key(s.key.t, s.key.n - 1)
    ensures KeysOk(ss + [s], maxFiles)
  {
    hide N.KeyLess, N.ValidKey;
    forall j | 0 <= j < |ss| ensures N.KeyLess(ss[j].key, s.key) {
      if j < |ss| - 1 {
        N.KeysTransitive(ss[j].key, ss[|ss| - 1].key, s.key);
      }
    }
  }

  lemma NoRotationYet(files: map<string, bytes>, first: nat, maxFiles: nat, now: N.Stamp, i: nat)
    requires OnDisk(files, [], first) && N.ValidStamp(now) && FirstFree(files, now, i)
    ensures i == 0
  {
    if i > 0 {
      var j := OnDiskHasKey(files, [], first, maxFiles, N.Key(now, 0));
      assert false;
    }
  }

  lemma FreshStamp(files: map<string, bytes>, ss: seq<Segment>, first: nat, maxFiles: nat, now: N.Stamp, i: nat)
    requires KeysOk(ss, maxFiles) && OnDisk(files, ss, first) && ss != []
    requires N.ValidStamp(now) && N.Earlier(ss[|ss| - 1].key.t, now) && FirstFree(files, now, i)
    ensures i == 0
  {
    if i > 0 {
      var j := OnDiskHasKey(files, ss, first, maxFiles, N.Key(now, 0));
      var last := ss[|ss| - 1].key;
      N.KeysTotal(last, last);
      if j < |ss| - 1 {
        N.KeysTransitive(last, N.Key(now, 0), last);
      }
      assert false;
    }
  }

  lemma SameStamp(files: map<string, bytes>, ss: seq<Segment>, now: N.Stamp, i: nat)
    requires KeysOk(ss, 0) && OnDisk(files, ss, 0) && ss != []
    requires ss[|ss| - 1].key.t == now && FirstFree(files, now, i)
    ensures i == ss[|ss| - 1].key.n + 1
  {
    var last := ss[|ss| - 1].key;
    if i <= last.n {
      EarlierAttempts(ss, |ss| - 1, i);
      assert false;
    } else if i > last.n + 1 {
      var next := N.Key(now, last.n + 1);
      var j := OnDiskHasKey(files, ss, 0, 0, next);
      N.KeysTotal(last, last);
      if j < |ss| - 1 {
        N.KeysTransitive(last, next, last);
      }
      assert false;
    }
  }

  // The live file and the write buffer hold exactly the live records, and size is their length.
  ghost predicate LiveFits(files: map<string, bytes>, buffered: bytes, live: seq<bytes>, size: nat, maxBytes: nat) {
    && CURRENT in files
    && files[CURRENT] + buffered == Flatten(live)
    && size == |Flatten(live)|
    && SizeOk(live, maxBytes)
    && (forall r :: r in live ==> r != [])
  }

  // One more record, of whose bytes (and those buffered before) the first k go to the file.
  lemma LiveGrows(files: map<string, bytes>, buffered: bytes, live: seq<bytes>, size: nat, maxBytes: nat,
                  record: bytes, k: nat)
    requires LiveFits(files, buffered, live, size, maxBytes) && record != [] && k <= |buffered + record|
    requires live == [] || |Flatten(live)| + |record| <= maxBytes
    ensures LiveFits(files[CURRENT := files[CURRENT] + (buffered + record)[..k]], (buffered + record)[k..],
                     live + [record], size + |record|, maxBytes)
  {
    hide Flatten;
    SpillKeeps(files[CURRENT], buffered, record, k);
    FlattenSnoc(live, record);
    forall r | r in live + [record] ensures r != [] {
    }
  }

  lemma SpillKeeps(file: bytes, held: bytes, record: bytes, k: nat)
    requires k <= |held + record|
    ensures file + (held + record)[..k] + (held + record)[k..] == file + held + record
  {
  }

  // All records written, in the segments and then the live ones; no segment is over the limit unless it is
  // a single record.
  ghost predicate HistoryFits(written: seq<bytes>, ss: seq<Segment>, live: seq<bytes>, maxBytes: nat) {
    && written == RecordsOf(ss) + live
    && (forall s :: s in ss ==> SizeOk(s.records, maxBytes) && s.records != [])
  }

  // The live records become a segment.
  lemma HistoryRotates(written: seq<bytes>, ss: seq<Segment>, live: seq<bytes>, key: N.Key, maxBytes: nat)
    requires HistoryFits(written, ss, live, maxBytes) && live != [] && SizeOk(live, maxBytes)
    ensures HistoryFits(written, ss + [Segment(key, live)], [], maxBytes)
  {
    hide RecordsOf;
    var s := Segment(key, live);
    RecordsSnoc(ss, s);
    assert RecordsOf(ss + [s]) + [] == RecordsOf(ss + [s]);
  }

  lemma HistoryGrows(written: seq<bytes>, ss: seq<Segment>, live: seq<bytes>, record: bytes, maxBytes: nat)
    requires HistoryFits(written, ss, live, maxBytes)
    ensures HistoryFits(written + [record], ss, live + [record], maxBytes)
  {
    hide RecordsOf;
    Assoc(RecordsOf(ss), live, [record]);
  }

  // The record written after the i-th segment was rotated.
  function NextRecord(ss: seq<Segment>, live: seq<bytes>, i: nat): bytes {
    var later := if i + 1 < |ss| then ss[i + 1].records else live;
    if later == [] then [] else later[0]
  }

  // No segment was rotated before the record after it would have passed the limit.
  ghost predicate RotatedLate(ss: seq<Segment>, live: seq<bytes>, maxBytes: nat) {
    && (live == [] ==> ss == [])
    && (forall i :: 0 <= i < |ss| ==> ss[i].records != [] && |Flatten(ss[i].records)| + |NextRecord(ss, live, i)| > maxBytes)
  }

  lemma LateGrows(ss: seq<Segment>, live: seq<bytes>, maxBytes: nat, record: bytes)
    requires RotatedLate(ss, live, maxBytes)
    ensures RotatedLate(ss, live + [record], maxBytes)
  {
    hide Flatten;
    forall i | 0 <= i < |ss| ensures NextRecord(ss, live + [record], i) == NextRecord(ss, live, i) {
    }
  }

  lemma LateRotates(ss: seq<Segment>, live: seq<bytes>, maxBytes: nat, key: N.Key, record: bytes)
    requires RotatedLate(ss, live, maxBytes) && live != [] && |Flatten(live)| + |record| > maxBytes
    ensures RotatedLate(ss + [Segment(key, live)], [record], maxBytes)
  {
    hide Flatten;
    var all := ss + [Segment(key, live)];
    forall i | 0 <= i < |all|
      ensures all[i].records != [] && |Flatten(all[i].records)| + |NextRecord(all, [record], i)| > maxBytes
    {
      if i < |ss| {
        assert all[i] == ss[i] && NextRecord(all, [record], i) == NextRecord(ss, live, i);
      }
    }
  }

  // That will be so once the record is written.
  ghost predicate LateBefore(ss: seq<Segment>, live: seq<bytes>, maxBytes: nat, record: bytes) {
    RotatedLate(ss, if live == [] then [record] else live, maxBytes)
  }

  lemma LateSteps(ss: seq<Segment>, live: seq<bytes>, maxBytes: nat, key: N.Key, record: bytes)
    requires RotatedLate(ss, live, maxBytes)
    ensures LateBefore(ss, live, maxBytes, record)
    ensures live != [] && |Flatten(live)| + |record| > maxBytes ==> LateBefore(ss + [Segment(key, live)], [], maxBytes, record)
  {
    if live != [] && |Flatten(live)| + |record| > maxBytes {
      LateRotates(ss, live, maxBytes, key, record);
    }
  }

  lemma LateIsKept(ss: seq<Segment>, live: seq<bytes>, maxBytes: nat, record: bytes)
    requires LateBefore(ss, live, maxBytes, record)
    ensures RotatedLate(ss, live + [record], maxBytes)
  {
    if live == [] {
      assert live + [record] == [record];
    } else {
      LateGrows(ss, live, maxBytes, record);
    }
  }

  // Where that record is among all that was written.
  lemma NextRecordIsNext(ss: seq<Segment>, live: seq<bytes>, written: seq<bytes>, maxBytes: nat, i: nat)
    requires RotatedLate(ss, live, maxBytes) && written == RecordsOf(ss) + live && i < |ss|
    ensures var k := |RecordsOf(ss[..i + 1])|; k < |written| && written[k] == NextRecord(ss, live, i)
  {
    hide RecordsOf;
    var k, rest := |RecordsOf(ss[..i + 1])|, ss[i + 1..];
    assert ss == ss[..i + 1] + rest;
    RecordsConcat(ss[..i + 1], rest);
    assert written[k..] == RecordsOf(rest) + live;
    if rest == [] {
      assert RecordsOf(rest) == [] by { NoRecords(); }
      assert written[k..] == live;
    } else {
      FirstOfRest(rest);
      assert ss[i + 1].records != [];
      assert written[k..][0] == RecordsOf(rest)[0];
    }
  }

  lemma NoRecords()
    ensures RecordsOf([]) == []
  {
  }

  lemma FirstOfRest(ss: seq<Segment>)
    requires ss != []
    ensures ss[0].records != [] ==> RecordsOf(ss) != [] && RecordsOf(ss)[0] == ss[0].records[0]
  {
    assert Parts(ss) == [ss[0].records] + Parts(ss[1..]);
    FlattenHead(ss[0].records, Parts(ss[1..]));
  }

  // How many of n rotations the directory keeps.
  function Kept(n: nat, maxFiles: nat): nat {
    if maxFiles == 0 || n < maxFiles then n else maxFiles
  }

  /* ---- Rotation and retention as functions on the directory ---- */

  ghost function RotatedNames(files: map<string, bytes>): set<string> {
    set n | n in files && N.IsRotationName(n)
  }

  // enforceRetention: the first names of the sorted listing go until maxFiles are left.
  function OldestOf(names: seq<string>, maxFiles: nat): seq<string> {
    if maxFiles == 0 || |names| <= maxFiles then [] else names[..|names| - maxFiles]
  }

  function SetOf(names: seq<string>): set<string> {
    set x | x in names
  }

  ghost function Excess(files: map<string, bytes>, maxFiles: nat): set<string> {
    SetOf(OldestOf(SortedNames(RotatedNames(files)), maxFiles))
  }

  ghost function Retained(files: map<string, bytes>, maxFiles: nat): map<string, bytes> {
    files - Excess(files, maxFiles)
  }

  // The rename of the live file.
  function Renamed(files: map<string, bytes>, target: string): map<string, bytes>
    requires CURRENT in files
  {
    (files - {CURRENT})[target := files[CURRENT]]
  }

  // rotate: rename, retention, an empty live file.
  ghost function AfterRotation(files: map<string, bytes>, target: string, maxFiles: nat): map<string, bytes>
    requires CURRENT in files
  {
    Retained(Renamed(files, target), maxFiles)[CURRENT := []]
  }

  // With the segments in name order, retention keeps exactly the newest.
  lemma RetainedKeepsOnDisk(files: map<string, bytes>, ss: seq<Segment>, first: nat, maxFiles: nat)
    requires KeysOk(ss, maxFiles) && OnDisk(files, ss, first) && first <= |ss| - Kept(|ss|, maxFiles)
    requires maxFiles == 0 ==> first == 0
    ensures OnDisk(Retained(files, maxFiles), ss, |ss| - Kept(|ss|, maxFiles))
  {
    hide Flatten, Sorted, KeysOk, OnDisk, N.Name, N.Less, N.IsRotationName, N.KeyLess, N.ValidKey;
    var f := |ss| - Kept(|ss|, maxFiles);
    var names := SortedNames(RotatedNames(files));
    ListingIsKept(files, ss, first, maxFiles, names);
    OldestSegments(ss, first, maxFiles);
    DropSegments(files, ss, first, f, maxFiles);
  }

  lemma OldestSegments(ss: seq<Segment>, first: nat, maxFiles: nat)
    requires first <= |ss| - Kept(|ss|, maxFiles) && (maxFiles == 0 ==> first == 0)
    ensures OldestOf(Names(ss[first..]), maxFiles) == Names(ss[first..|ss| - Kept(|ss|, maxFiles)])
  {
    var f := |ss| - Kept(|ss|, maxFiles);
    if f > first {
      NamesPrefix(ss, first, f);
    } else {
      assert ss[first..f] == [];
    }
  }

  lemma NamesPrefix(ss: seq<Segment>, first: nat, f: nat)
    requires first <= f <= |ss|
    ensures Names(ss[first..])[..f - first] == Names(ss[first..f])
  {
  }

  lemma DropSegments(files: map<string, bytes>, ss: seq<Segment>, first: nat, f: nat, maxFiles: nat)
    requires KeysOk(ss, maxFiles) && OnDisk(files, ss, first) && first <= f <= |ss|
    ensures OnDisk(files - SetOf(Names(ss[first..f])), ss, f)
  {
    hide Flatten, N.Name, N.Less, N.IsRotationName, N.KeyLess, N.ValidKey;
    var names := Names(ss[first..f]);
    var gone := SetOf(names);
    forall j | first <= j < f ensures N.Name(ss[j].key) in gone {
      assert names[j - first] in names;
    }
    forall j | f <= j < |ss| ensures N.Name(ss[j].key) !in gone {
      if N.Name(ss[j].key) in gone {
        var i :| 0 <= i < |names| && names[i] == N.Name(ss[j].key);
        N.NamesInOrder(ss[first + i].key, ss[j].key);
        N.LessIrreflexive(names[i]);
        assert false;
      }
    }
    forall name | name in files - gone && N.IsRotationName(name) ensures IsKept(name, ss, f) {
      var j :| first <= j < |ss| && name == N.Name(ss[j].key);
      assert j >= f;
    }
  }

  // One rotation on a directory whose segments are in name order.
  lemma RotationKeepsOrder(files: map<string, bytes>, ss: seq<Segment>, maxFiles: nat, now: N.Stamp, n: nat,
                           records: seq<bytes>)
    requires KeysOk(ss, maxFiles) && OnDisk(files, ss, |ss| - Kept(|ss|, maxFiles))
    requires ClockOk(ss, now, maxFiles) && FirstFree(files, now, n)
    requires CURRENT in files && files[CURRENT] == Flatten(records)
    ensures var ss' := ss + [Segment(N.Key(now, n), records)];
            && KeysOk(ss', maxFiles)
            && OnDisk(AfterRotation(files, N.Name(N.Key(now, n)), maxFiles), ss', |ss'| - Kept(|ss'|, maxFiles))
  {
    hide Flatten, KeysOk, OnDisk, Excess, FirstFree, N.Name, N.IsRotationName, N.Earlier;
    var s := Segment(N.Key(now, n), records);
    var ss', target := ss + [s], N.Name(s.key);
    var first := |ss| - Kept(|ss|, maxFiles);
    NewKeyIsLast(files, ss, first, maxFiles, now, n, records);
    CurrentIsSeparate(files, ss, first, maxFiles, []);
    RenameAddsSegment(files - {CURRENT}, ss, first, maxFiles, s);
    assert Renamed(files, target) == (files - {CURRENT})[target := Flatten(records)];
    RetainedKeepsOnDisk(Renamed(files, target), ss', first, maxFiles);
    CurrentIsSeparate(Retained(Renamed(files, target), maxFiles), ss', |ss'| - Kept(|ss'|, maxFiles), maxFiles, []);
  }

  /* ---- What holds for every clock ---- */

  ghost predicate IsStored(files: map<string, bytes>, s: Segment) {
    N.Name(s.key) in files && files[N.Name(s.key)] == Flatten(s.records)
  }

  // A rotated file that was not there before holds one whole segment; without retention every segment has
  // its file.
  ghost predicate ContentsOk(files: map<string, bytes>, ss: seq<Segment>, foreign: set<string>, maxFiles: nat) {
    && (forall x :: x in files && N.IsRotationName(x) && x !in foreign ==> IsSegmentFile(files, x, ss))
    && (maxFiles == 0 ==> AllStored(files, ss))
  }

  // Each segment in a file of its own.
  ghost predicate AllStored(files: map<string, bytes>, ss: seq<Segment>) {
    && (forall j :: 0 <= j < |ss| ==> N.ValidKey(ss[j].key) && IsStored(files, ss[j]))
    && (forall i, j :: 0 <= i < j < |ss| ==> N.Name(ss[i].key) != N.Name(ss[j].key))
  }

  ghost predicate IsSegmentFile(files: map<string, bytes>, name: string, ss: seq<Segment>)
    requires name in files
  {
    exists j :: 0 <= j < |ss| && name == N.Name(ss[j].key) && files[name] == Flatten(ss[j].records)
  }

  lemma CurrentKeepsContents(files: map<string, bytes>, ss: seq<Segment>, foreign: set<string>, maxFiles: nat, data: bytes)
    requires ContentsOk(files, ss, foreign, maxFiles)
    ensures ContentsOk(files[CURRENT := data], ss, foreign, maxFiles)
    ensures ContentsOk(files - {CURRENT}, ss, foreign, maxFiles)
  {
    hide Flatten, N.Name, N.ValidKey;
    NotRotation();
    forall j | 0 <= j < |ss| && maxFiles == 0 ensures N.Name(ss[j].key) != CURRENT {
      assert IsStored(files, ss[j]);
      N.RotationNamesAreRecognised(ss[j].key);
    }
    forall x | x in files && N.IsRotationName(x) && x !in foreign
      ensures IsSegmentFile(files[CURRENT := data], x, ss) && IsSegmentFile(files - {CURRENT}, x, ss)
    {
      assert IsSegmentFile(files, x, ss);
    }
  }

  lemma RenameKeepsContents(files: map<string, bytes>, ss: seq<Segment>, foreign: set<string>, maxFiles: nat, s: Segment)
    requires ContentsOk(files, ss, foreign, maxFiles) && N.ValidKey(s.key) && N.Name(s.key) !in files
    ensures ContentsOk(files[N.Name(s.key) := Flatten(s.records)], ss + [s], foreign, maxFiles)
  {
    hide Flatten, N.Name, N.ValidKey, N.IsRotationName;
    var all, files' := ss + [s], files[N.Name(s.key) := Flatten(s.records)];
    forall x | x in files' && N.IsRotationName(x) && x !in foreign ensures IsSegmentFile(files', x, all) {
      if x == N.Name(s.key) {
        assert all[|ss|] == s;
      } else {
        assert IsSegmentFile(files, x, ss);
        var j :| 0 <= j < |ss| && x == N.Name(ss[j].key) && files[x] == Flatten(ss[j].records);
        assert all[j] == ss[j];
      }
    }
    forall j | 0 <= j < |all| && maxFiles == 0 ensures N.ValidKey(all[j].key) && IsStored(files', all[j]) {
      if j < |ss| {
        assert all[j] == ss[j] && IsStored(files, ss[j]);
      }
    }
  }

  lemma RetainedKeepsContents(files: map<string, bytes>, ss: seq<Segment>, foreign: set<string>, maxFiles: nat)
    requires ContentsOk(files, ss, foreign, maxFiles)
    ensures ContentsOk(Retained(files, maxFiles), ss, foreign, maxFiles)
  {
    hide Flatten, N.Name, N.ValidKey, N.IsRotationName;
    var files' := Retained(files, maxFiles);
    if maxFiles == 0 {
      assert files' == files;
    }
    forall x | x in files' && N.IsRotationName(x) && x !in foreign ensures IsSegmentFile(files', x, ss) {
      assert IsSegmentFile(files, x, ss);
    }
  }

  lemma RotationKeepsContents(files: map<string, bytes>, ss: seq<Segment>, foreign: set<string>, maxFiles: nat,
                              now: N.Stamp, n: nat, records: seq<bytes>)
    requires ContentsOk(files, ss, foreign, maxFiles) && N.ValidStamp(now) && FirstFree(files, now, n)
    requires CURRENT in files && files[CURRENT] == Flatten(records)
    ensures ContentsOk(AfterRotation(files, N.Name(N.Key(now, n)), maxFiles), ss + [Segment(N.Key(now, n), records)],
                       foreign, maxFiles)
  {
    var s := Segment(N.Key(now, n), records);
    var ss', target := ss + [s], N.Name(s.key);
    assert N.ValidKey(s.key) && target !in files;
    hide Flatten, ContentsOk, Excess, FirstFree, N.Name, N.ValidKey;
    CurrentKeepsContents(files, ss, foreign, maxFiles, []);
    RenameKeepsContents(files - {CURRENT}, ss, foreign, maxFiles, s);
    assert Renamed(files, target) == (files - {CURRENT})[target := Flatten(records)];
    RetainedKeepsContents(Renamed(files, target), ss', foreign, maxFiles);
    CurrentKeepsContents(Retained(Renamed(files, target), maxFiles), ss', foreign, maxFiles, []);
  }

  // The rotated files: whole segments for every clock, and the newest segments in order while the clock
  // has been steady.
  ghost predicate DirOk(files: map<string, bytes>, ss: seq<Segment>, foreign: set<string>, maxFiles: nat, steady: bool) {
    && ContentsOk(files, ss, foreign, maxFiles)
    && (steady ==> KeysOk(ss, maxFiles) && OnDisk(files, ss, |ss| - Kept(|ss|, maxFiles)))
  }

  lemma CurrentKeepsDir(files: map<string, bytes>, ss: seq<Segment>, foreign: set<string>, maxFiles: nat, steady: bool,
                        data: bytes)
    requires DirOk(files, ss, foreign, maxFiles, steady)
    ensures DirOk(files[CURRENT := data], ss, foreign, maxFiles, steady)
  {
    hide ContentsOk, KeysOk, OnDisk;
    CurrentKeepsContents(files, ss, foreign, maxFiles, data);
    if steady {
      CurrentIsSeparate(files, ss, |ss| - Kept(|ss|, maxFiles), maxFiles, data);
    }
  }

  lemma RotationKeepsDir(files: map<string, bytes>, ss: seq<Segment>, foreign: set<string>, maxFiles: nat, steady: bool,
                         now: N.Stamp, n: nat, records: seq<bytes>)
    requires DirOk(files, ss, foreign, maxFiles, steady) && N.ValidStamp(now) && FirstFree(files, now, n)
    requires CURRENT in files && files[CURRENT] == Flatten(records)
    ensures DirOk(AfterRotation(files, N.Name(N.Key(now, n)), maxFiles), ss + [Segment(N.Key(now, n), records)], foreign,
                  maxFiles, steady && ClockOk(ss, now, maxFiles))
  {
    hide ContentsOk, KeysOk, OnDisk, FirstFree, Flatten, N.ValidStamp, ClockOk, AfterRotation;
    RotationKeepsContents(files, ss, foreign, maxFiles, now, n, records);
    if steady && ClockOk(ss, now, maxFiles) {
      RotationKeepsOrder(files, ss, maxFiles, now, n, records);
    }
  }

  lemma FreshDir(files: map<string, bytes>, maxFiles: nat)
    ensures DirOk(files, [], RotatedNames(files), maxFiles, RotatedNames(files) == {})
  {
    hide N.IsRotationName;
    forall x | x in files && N.IsRotationName(x) ensures x in RotatedNames(files) {
    }
  }

  // A rotation touches no file that is neither the live one nor has the name of a rotated one.
  lemma UnrelatedFilesStay(files: map<string, bytes>, k: N.Key, maxFiles: nat, name: string)
    requires CURRENT in files && N.ValidKey(k) && name != CURRENT && !N.IsRotationName(name)
    ensures var after := AfterRotation(files, N.Name(k), maxFiles);
            (name in after <==> name in files) && (name in files ==> after[name] == files[name])
  {
    N.RotationNamesAreRecognised(k);
    ExcessIsRotated(Renamed(files, N.Name(k)), maxFiles);
    hide N.IsRotationName, N.Name, Excess;
  }

  lemma ExcessIsRotated(files: map<string, bytes>, maxFiles: nat)
    ensures forall x :: x in Excess(files, maxFiles) ==> x in files && N.IsRotationName(x)
  {
    hide N.IsRotationName, Sorted;
    var names := SortedNames(RotatedNames(files));
    forall x | x in Excess(files, maxFiles) ensures x in RotatedNames(files) {
      assert x in OldestOf(names, maxFiles) && x in names;
    }
  }

  // Renaming, retention and a new live file are the whole of a rotation.
  lemma RotationInSteps(files: map<string, bytes>, now: N.Stamp, n: nat, maxFiles: nat)
    requires CURRENT in files && N.ValidKey(N.Key(now, n))
    ensures var rest := Retained(Renamed(files, N.Name(N.Key(now, n))), maxFiles);
            CURRENT !in rest && AfterRotation(files, N.Name(N.Key(now, n)), maxFiles) == rest[CURRENT := []]
  {
    N.RotationNamesAreRecognised(N.Key(now, n));
  }
}
