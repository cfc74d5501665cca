/** When the segment just rotated survives retention (sink_dir.go): for every directory and every clock. */
module Retention {
  import opened LogRecords
  import opened DirSpec
  import opened DirSink
  import N = RotationNames

  // The new name sorts after an existing one exactly if the clock has moved on since, or stands still and
  // all attempts up to that one are still there.
  lemma NewNameSortsLast(files: map<string, bytes>, last: N.Key, now: N.Stamp, n: nat)
    requires N.ValidKey(last) && N.ValidStamp(now) && FirstFree(files, now, n) && N.Name(last) in files
    ensures N.Less(N.Name(last), N.Name(N.Key(now, n))) <==>
            N.Earlier(last.t, now) || (last.t == now && AllTaken(files, now, last.n))
  {
    var k := N.Key(now, n);
    N.NamesReflectOrder(last, k);
    N.KeysTotal(last, last);
    if last.t == now {
      assert !N.Earlier(last.t, now);
      assert N.Name(N.Key(now, last.n)) == N.Name(last);
    }
  }

  // The rotated files whose names sort after a name.
  ghost function Later(files: map<string, bytes>, name: string): set<string> {
    set x | x in files && N.IsRotationName(x) && N.Less(name, x)
  }

  lemma {:induction false} SetOfSorted(names: seq<string>)
    requires Sorted(names)
    ensures |SetOf(names)| == |names|
  {
    if names != [] {
      var init, last := names[..|names| - 1], names[|names| - 1];
      SetOfSorted(init);
      assert last !in init by {
        if i :| 0 <= i < |init| && init[i] == last {
          N.LessIrreflexive(last);
          assert false;
        }
      }
      assert SetOf(names) == SetOf(init) + {last};
    }
  }

  function After(names: seq<string>, name: string): set<string> {
    set x | x in names && N.Less(name, x)
  }

  // In a sorted list the p-th name is followed by exactly the names that sort after it.
  lemma AfterPosition(names: seq<string>, p: nat)
    requires Sorted(names) && p < |names|
    ensures |After(names, names[p])| == |names| - 1 - p
  {
    var rest := names[p + 1..];
    SetOfSorted(rest);
    forall x ensures x in After(names, names[p]) <==> x in SetOf(rest) {
      if x in SetOf(rest) {
        var i :| 0 <= i < |rest| && rest[i] == x;
        assert names[p + 1 + i] == x;
      }
      if x in names && N.Less(names[p], x) {
        var i :| 0 <= i < |names| && names[i] == x;
        NotBefore(names, p, i);
        assert rest[i - p - 1] == x;
      }
    }
    assert After(names, names[p]) == SetOf(rest);
  }

  lemma NotBefore(names: seq<string>, p: nat, i: nat)
    requires Sorted(names) && p < |names| && i < |names| && N.Less(names[p], names[i])
    ensures i > p
  {
    N.LessIrreflexive(names[p]);
    if i < p {
      N.LessTransitive(names[p], names[i], names[p]);
    }
  }

  // Retention keeps a rotated file exactly if fewer than maxFiles sort after it.
  lemma RetainedIff(files: map<string, bytes>, name: string, maxFiles: nat)
    requires name in files && N.IsRotationName(name)
    ensures name in Retained(files, maxFiles) <==> maxFiles == 0 || |Later(files, name)| < maxFiles
    ensures name in Retained(files, maxFiles) ==> Retained(files, maxFiles)[name] == files[name]
  {
    hide N.IsRotationName;
    var names := SortedNames(RotatedNames(files));
    assert name in RotatedNames(files) && name in names;
    var p :| 0 <= p < |names| && names[p] == name;
    AfterPosition(names, p);
    assert Later(files, name) == After(names, name);
    InOldestIff(names, p, maxFiles);
  }

  lemma InOldestIff(names: seq<string>, p: nat, maxFiles: nat)
    requires Sorted(names) && p < |names|
    ensures names[p] in OldestOf(names, maxFiles) <==> maxFiles > 0 && |names| - 1 - p >= maxFiles
  {
    var oldest := OldestOf(names, maxFiles);
    if names[p] in oldest {
      var i :| 0 <= i < |oldest| && oldest[i] == names[p];
      SortedDistinct(names, i, p);
    }
    if maxFiles > 0 && |names| - 1 - p >= maxFiles {
      assert oldest[p] == names[p];
    }
  }

  lemma SortedDistinct(names: seq<string>, i: nat, j: nat)
    requires Sorted(names) && i < |names| && j < |names| && names[i] == names[j]
    ensures i == j
  {
    N.LessIrreflexive(names[i]);
  }

  // The segment just rotated, in any directory and at any reading of the clock: it survives exactly if
  // fewer than maxFiles of the rotated files there sort after its name.
  lemma NewestSurvivesIff(files: map<string, bytes>, now: N.Stamp, n: nat, maxFiles: nat)
    requires CURRENT in files && N.ValidStamp(now) && FirstFree(files, now, n)
    ensures var name := N.Name(N.Key(now, n));
            var after := AfterRotation(files, name, maxFiles);
            && (name in after <==> maxFiles == 0 || |Later(files, name)| < maxFiles)
            && (name in after ==> after[name] == files[CURRENT])
  {
    var name := N.Name(N.Key(now, n));
    N.RotationNamesAreRecognised(N.Key(now, n));
    N.LessIrreflexive(name);
    RetainedIff(Renamed(files, name), name, maxFiles);
    LaterRenamed(files, name);
    hide N.IsRotationName, N.Name, Excess, Retained, Renamed, Later, FirstFree;
  }

  lemma LaterRenamed(files: map<string, bytes>, name: string)
    requires CURRENT in files && N.IsRotationName(name)
    ensures Later(Renamed(files, name), name) == Later(files, name)
    ensures name != CURRENT && Renamed(files, name)[name] == files[CURRENT]
  {
    NotRotation();
    N.LessIrreflexive(name);
  }

  /* ---- The condition in terms of the clock ---- */

  // The rotated files are those of the rotations ks, in order of time and attempt; the clock may have read
  // anything in between.
  ghost predicate HoldsKeys(files: map<string, bytes>, ks: seq<N.Key>) {
    && (forall i :: 0 <= i < |ks| ==> N.ValidKey(ks[i]))
    && (forall i, j :: 0 <= i < j < |ks| ==> N.KeyLess(ks[i], ks[j]))
    && SetOf(KeyNames(ks)) == RotatedNames(files)
  }

  function KeyNames(ks: seq<N.Key>): (names: seq<string>)
    ensures |names| == |ks| && forall i :: 0 <= i < |ks| ==> names[i] == N.Name(ks[i])
  {
    seq(|ks|, i requires 0 <= i < |ks| => N.Name(ks[i]))
  }

  lemma KeyNamesSorted(files: map<string, bytes>, ks: seq<N.Key>)
    requires HoldsKeys(files, ks)
    ensures Sorted(KeyNames(ks))
  {
    forall i, j | 0 <= i < j < |ks| ensures N.Less(N.Name(ks[i]), N.Name(ks[j])) {
      N.NamesInOrder(ks[i], ks[j]);
    }
  }

  // How many files sort after a new name, from where it stands relative to the j-th.
  lemma CountLater(files: map<string, bytes>, names: seq<string>, name: string, j: nat)
    requires Sorted(names) && SetOf(names) == RotatedNames(files) && j < |names| && name !in files
    ensures N.Less(names[j], name) ==> |Later(files, name)| <= |names| - 1 - j
    ensures !N.Less(names[j], name) ==> |Later(files, name)| >= |names| - j
  {
    hide N.IsRotationName, N.Less;
    AfterPosition(names, j);
    InDirectory(files, names, j);
    assert forall x :: x in names <==> x in RotatedNames(files) by { assert forall x :: x in names <==> x in SetOf(names); }
    if N.Less(names[j], name) {
      forall x | x in Later(files, name) ensures x in After(names, names[j]) {
        N.LessTransitive(names[j], name, x);
      }
      SubsetSize(Later(files, name), After(names, names[j]));
    } else {
      N.LessTotal(names[j], name);
      N.LessIrreflexive(names[j]);
      forall x | x in After(names, names[j]) ensures x in Later(files, name) {
        N.LessTransitive(name, names[j], x);
      }
      SubsetSize(After(names, names[j]) + {names[j]}, Later(files, name));
    }
  }

  // Exactly: with room for another file the new segment always survives; otherwise it does if and only if,
  // since the oldest rotation that could stay, the clock has moved on, or stands still with all attempts up
  // to that rotation's still there.
  lemma SurvivesIff(files: map<string, bytes>, ks: seq<N.Key>, now: N.Stamp, n: nat, maxFiles: nat)
    requires HoldsKeys(files, ks) && CURRENT in files && N.ValidStamp(now) && FirstFree(files, now, n)
    ensures N.Name(N.Key(now, n)) in AfterRotation(files, N.Name(N.Key(now, n)), maxFiles) <==>
            || maxFiles == 0 || |ks| < maxFiles
            || var k := ks[|ks| - maxFiles]; N.Earlier(k.t, now) || (k.t == now && AllTaken(files, now, k.n))
  {
    var name, names := N.Name(N.Key(now, n)), KeyNames(ks);
    NewestSurvivesIff(files, now, n, maxFiles);
    KeyNamesSorted(files, ks);
    FreeName(files, now, n);
    hide N.Name, N.Less, N.IsRotationName, N.Earlier, AfterRotation, N.KeyLess, FirstFree, AllTaken, Later, N.ValidStamp;
    if maxFiles > 0 && |ks| >= maxFiles {
      FewerLaterIff(files, ks, now, n, maxFiles);
    } else if maxFiles > 0 {
      FewLater(files, names, name);
    }
  }

  lemma FreeName(files: map<string, bytes>, now: N.Stamp, n: nat)
    requires FirstFree(files, now, n)
    ensures N.Name(N.Key(now, n)) !in files
  {
  }

  lemma FewerLaterIff(files: map<string, bytes>, ks: seq<N.Key>, now: N.Stamp, n: nat, maxFiles: nat)
    requires HoldsKeys(files, ks) && N.ValidStamp(now) && FirstFree(files, now, n) && 0 < maxFiles <= |ks|
    ensures |Later(files, N.Name(N.Key(now, n)))| < maxFiles <==>
            var k := ks[|ks| - maxFiles]; N.Earlier(k.t, now) || (k.t == now && AllTaken(files, now, k.n))
  {
    var name, names, j := N.Name(N.Key(now, n)), KeyNames(ks), |ks| - maxFiles;
    KeyNamesSorted(files, ks);
    FreeName(files, now, n);
    hide N.Name, N.Less, N.IsRotationName, N.Earlier, N.KeyLess, FirstFree, AllTaken, Later, N.ValidStamp, N.ValidKey;
    InDirectory(files, names, j);
    CountLater(files, names, name, j);
    NewNameSortsLast(files, ks[j], now, n);
  }

  lemma InDirectory(files: map<string, bytes>, names: seq<string>, j: nat)
    requires SetOf(names) == RotatedNames(files) && j < |names|
    ensures names[j] in files && N.IsRotationName(names[j])
  {
    assert names[j] in SetOf(names) && names[j] in RotatedNames(files);
  }

  lemma FewLater(files: map<string, bytes>, names: seq<string>, name: string)
    requires Sorted(names) && SetOf(names) == RotatedNames(files)
    ensures |Later(files, name)| <= |names|
  {
    SetOfSorted(names);
    SubsetSize(Later(files, name), SetOf(names));
  }

  /* ---- How a segment is lost ---- */

  // The clock stands still: with one file kept, of three segments rotated at one time the second stays. The
  // first goes when the second comes, its name is free again, and the third gets that name and goes.
  lemma StandingClockLosesTheNewest(t: N.Stamp, a: bytes, b: bytes, c: bytes)
    requires N.ValidStamp(t)
    ensures var first, second := N.Name(N.Key(t, 0)), N.Name(N.Key(t, 1));
            var d0, d1, d2 := map[CURRENT := a], map[first := a, CURRENT := b], map[second := b, CURRENT := c];
            && FirstFree(d0, t, 0) && AfterRotation(d0, first, 1) == map[first := a, CURRENT := []]
            && FirstFree(d1, t, 1) && AfterRotation(d1, second, 1) == map[second := b, CURRENT := []]
            && FirstFree(d2, t, 0) && AfterRotation(d2, first, 1) == map[second := b, CURRENT := []]
  {
    var first, second := N.Name(N.Key(t, 0)), N.Name(N.Key(t, 1));
    N.NamesReflectOrder(N.Key(t, 0), N.Key(t, 1));
    N.RotationNamesAreRecognised(N.Key(t, 0));
    N.RotationNamesAreRecognised(N.Key(t, 1));
    NotRotation();
    hide N.Name, N.IsRotationName, N.Less, FirstFree, AfterRotation;
    FreeAttempt(map[CURRENT := a], t, 0);
    FreeAttempt(map[first := a, CURRENT := b], t, 1);
    FreeAttempt(map[second := b, CURRENT := c], t, 0);
    OneRotation(first, a);
    OldGoes(first, second, a, b);
    NewGoes(first, second, b, c);
  }

  lemma FreeAttempt(files: map<string, bytes>, t: N.Stamp, n: nat)
    requires N.Name(N.Key(t, n)) !in files && n <= 1 && (n == 1 ==> N.Name(N.Key(t, 0)) in files)
    ensures FirstFree(files, t, n)
  {
  }

  // The clock steps back: a segment rotated at a time before that of the one file kept goes at once.
  lemma SteppedBackClockLosesTheNewest(t: N.Stamp, u: N.Stamp, a: bytes, b: bytes)
    requires N.ValidStamp(t) && N.ValidStamp(u) && N.Earlier(u, t)
    ensures var there, name := N.Name(N.Key(t, 0)), N.Name(N.Key(u, 0));
            var d := map[there := a, CURRENT := b];
            FirstFree(d, u, 0) && AfterRotation(d, name, 1) == map[there := a, CURRENT := []]
  {
    N.NamesInOrder(N.Key(u, 0), N.Key(t, 0));
    N.LessIrreflexive(N.Name(N.Key(u, 0)));
    N.RotationNamesAreRecognised(N.Key(t, 0));
    N.RotationNamesAreRecognised(N.Key(u, 0));
    NotRotation();
    hide N.Name, N.IsRotationName, N.Less, FirstFree, AfterRotation;
    FreeAttempt(map[N.Name(N.Key(t, 0)) := a, CURRENT := b], u, 0);
    NewGoes(N.Name(N.Key(u, 0)), N.Name(N.Key(t, 0)), a, b);
  }

  lemma OneRotation(x: string, data: bytes)
    requires N.IsRotationName(x)
    ensures AfterRotation(map[CURRENT := data], x, 1) == map[x := data, CURRENT := []]
  {
    NotRotation();
    var d := Renamed(map[CURRENT := data], x);
    assert d == map[x := data];
    assert RotatedNames(d) == {x};
    assert Retained(d, 1) == d;
  }

  // Of two rotated files the one whose name sorts first goes.
  lemma FirstOfTwoGoes(x: string, y: string, files: map<string, bytes>)
    requires N.IsRotationName(x) && N.IsRotationName(y) && N.Less(x, y) && files.Keys == {x, y}
    ensures Retained(files, 1) == files - {x}
  {
    N.LessIrreflexive(x);
    hide N.IsRotationName, N.Less;
    SortedUnique(SortedNames(RotatedNames(files)), [x, y]);
    assert [x, y][..1] == [x];
    assert Excess(files, 1) == {x};
  }

  lemma OldGoes(x: string, y: string, a: bytes, b: bytes)
    requires N.IsRotationName(x) && N.IsRotationName(y) && N.Less(x, y) && !N.IsRotationName(CURRENT)
    ensures AfterRotation(map[x := a, CURRENT := b], y, 1) == map[y := b, CURRENT := []]
  {
    N.LessIrreflexive(x);
    hide N.IsRotationName, N.Less;
    var d := Renamed(map[x := a, CURRENT := b], y);
    assert d == map[x := a, y := b];
    FirstOfTwoGoes(x, y, d);
    assert Retained(d, 1) == map[y := b];
  }

  lemma NewGoes(x: string, y: string, a: bytes, b: bytes)
    requires N.IsRotationName(x) && N.IsRotationName(y) && N.Less(x, y) && !N.IsRotationName(CURRENT)
    ensures AfterRotation(map[y := a, CURRENT := b], x, 1) == map[y := a, CURRENT := []]
  {
    N.LessIrreflexive(x);
    hide N.IsRotationName, N.Less;
    var d := Renamed(map[y := a, CURRENT := b], x);
    assert d == map[x := b, y := a];
    FirstOfTwoGoes(x, y, d);
    assert Retained(d, 1) == map[y := a];
  }

  // A sink that keeps one file, with one record in the live file.
  ghost predicate Holds(sink: DirectorySink, written: seq<bytes>, rotated: map<string, bytes>, last: bytes)
    reads sink
  {
    sink.written == written && sink.Valid() && sink.open && sink.cfg == Config(1, 1) && sink.files - {CURRENT} == rotated && sink.live == [last]
  }

  lemma FlushedIs(sink: DirectorySink, written: seq<bytes>, rotated: map<string, bytes>, last: bytes)
    requires Holds(sink, written, rotated, last)
    ensures CURRENT in sink.files && sink.Flushed() == rotated[CURRENT := last]
    ensures sink.size == |last| > 0
  {
    assert [last][..0] == [] && [] + last == last;
    assert Flatten([last]) == Flatten<byte>([]) + last == last;
    assert last in sink.live;
    WithCurrent(sink.files, last);
  }

  lemma WithCurrent(files: map<string, bytes>, data: bytes)
    requires CURRENT in files
    ensures files[CURRENT := data] == (files - {CURRENT})[CURRENT := data]
  {
  }

  lemma WithoutCurrent(files: map<string, bytes>, data: bytes)
    requires CURRENT !in files
    ensures files[CURRENT := data] - {CURRENT} == files
  {
  }

  // A rotation at t turns the rotated files into others.
  ghost predicate Turns(rotated: map<string, bytes>, last: bytes, t: N.Stamp, n: nat, after: map<string, bytes>) {
    && CURRENT !in after && FirstFree(rotated[CURRENT := last], t, n)
    && AfterRotation(rotated[CURRENT := last], N.Name(N.Key(t, n)), 1) == after[CURRENT := []]
  }

  lemma StandingClockTurns(t: N.Stamp, a: bytes, b: bytes, c: bytes)
    requires N.ValidStamp(t)
    ensures var first, second := N.Name(N.Key(t, 0)), N.Name(N.Key(t, 1));
            && Turns(map[], a, t, 0, map[first := a])
            && Turns(map[first := a], b, t, 1, map[second := b])
            && Turns(map[second := b], c, t, 0, map[second := b])
  {
    StandingClockLosesTheNewest(t, a, b, c);
    NotCurrent(t);
  }

  // With a limit of one byte every further record rotates the one before.
  method Next(sink: DirectorySink, ghost written: seq<bytes>, ghost rotated: map<string, bytes>, ghost last: bytes,
              record: bytes, t: N.Stamp, ghost n: nat, ghost after: map<string, bytes>)
    requires Holds(sink, written, rotated, last) && N.ValidStamp(t) && record != [] && Turns(rotated, last, t, n, after)
    modifies sink
    ensures Holds(sink, written + [record], after, record)
  {
    FlushedIs(sink, written, rotated, last);
    OneFirstFree(rotated[CURRENT := last], t, n);
    WithoutCurrent(after, []);
    hide DirectorySink.Valid, DirectorySink.Flushed, FirstFree, AllTaken, AfterRotation, ClockOk, N.Name, N.ValidStamp;
    var ok;
    ghost var m;
    ok, m := sink.WriteRecord(record, t, 0);
  }

  lemma OneFirstFree(files: map<string, bytes>, t: N.Stamp, n: nat)
    requires FirstFree(files, t, n)
    ensures !AllTaken(files, t, 1000) && forall m :: FirstFree(files, t, m) ==> m == n
  {
  }

  // The same on the sink: four records written at one reading of the clock to a new sink that keeps one
  // file. After a flush the third is in no file.
  method ThirdRecordIsLost(t: N.Stamp, a: bytes, b: bytes, c: bytes, d: bytes) returns (sink: DirectorySink)
    requires N.ValidStamp(t) && a != [] && b != [] && c != [] && d != []
    ensures fresh(sink) && sink.Valid() && sink.cfg == Config(1, 1) && sink.buffered == []
    ensures sink.written == [a, b, c, d] && sink.files == map[N.Name(N.Key(t, 1)) := b, CURRENT := d]
  {
    StandingClockTurns(t, a, b, c);
    ghost var first, second := N.Name(N.Key(t, 0)), N.Name(N.Key(t, 1));
    hide *;
    sink := NewSink(a, t);
    Next(sink, [a], map[], a, b, t, 0, map[first := a]);
    Next(sink, [a] + [b], map[first := a], b, c, t, 1, map[second := b]);
    Next(sink, [a] + [b] + [c], map[second := b], c, d, t, 0, map[second := b]);
    FlushAll(sink, [a] + [b] + [c] + [d], map[second := b], d);
    FourRecords(a, b, c, d);
  }

  lemma FourRecords(a: bytes, b: bytes, c: bytes, d: bytes)
    ensures [a] + [b] + [c] + [d] == [a, b, c, d]
  {
  }

  lemma NotCurrent(t: N.Stamp)
    requires N.ValidStamp(t)
    ensures N.Name(N.Key(t, 0)) != CURRENT && N.Name(N.Key(t, 1)) != CURRENT
  {
    N.RotationNamesAreRecognised(N.Key(t, 0));
    N.RotationNamesAreRecognised(N.Key(t, 1));
  }

  method NewSink(a: bytes, t: N.Stamp) returns (sink: DirectorySink)
    requires N.ValidStamp(t) && a != []
    ensures fresh(sink) && Holds(sink, [a], map[], a)
  {
    sink := new DirectorySink(Config(1, 1), map[]);
    sink.StartsEmpty();
    var ok;
    ghost var n;
    ok, n := sink.WriteRecord(a, t, 0);
    assert sink.files - {CURRENT} == map[];
  }

  method FlushAll(sink: DirectorySink, ghost written: seq<bytes>, ghost rotated: map<string, bytes>, ghost last: bytes)
    requires Holds(sink, written, rotated, last)
    modifies sink
    ensures sink.Valid() && sink.buffered == [] && sink.cfg == Config(1, 1)
    ensures sink.written == written && sink.files == rotated[CURRENT := last]
  {
    FlushedIs(sink, written, rotated, last);
    hide DirectorySink.Valid, DirectorySink.Flushed;
    sink.Flush();
  }
}
