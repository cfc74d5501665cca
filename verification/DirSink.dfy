/** sink_dir.go: one live file, rotation between records, retention by name order. */
module DirSink {
  import opened LogRecords
  import opened DirSpec
  import N = RotationNames

  class DirectorySink {
    const cfg: Config
    ghost const foreign: set<string>   // rotated files that were there before
    var files: map<string, bytes>
    var buffered: bytes       // in the bufio.Writer, not yet in the file
    var size: nat
    var open: bool            // s.w is not nil

    ghost var segments: seq<Segment>   // every rotation so far
    ghost var live: seq<bytes>         // formatted records since the last one
    ghost var written: seq<bytes>      // every formatted record so far, after what was in the live file
    ghost var steady: bool             // no rotated files were there before, and the clock has been steady

    // The first rotation still on disk while the clock is steady.
    ghost function First(): nat
      reads this
    {
      |segments| - Kept(|segments|, cfg.maxFiles)
    }

    ghost predicate LiveOk()
      reads this
    {
      LiveFits(files, buffered, live, size, cfg.maxBytes)
    }

    ghost predicate HistoryOk()
      reads this
    {
      HistoryFits(written, segments, live, cfg.maxBytes)
    }

    ghost predicate Valid()
      reads this
    {
      && cfg.maxBytes > 0 && LiveOk() && HistoryOk()
      && DirOk(files, segments, foreign, cfg.maxFiles, steady)
    }

    // As long as only WriteRecord rotates.
    ghost predicate Late()
      reads this
    {
      RotatedLate(segments, live, cfg.maxBytes)
    }

    // The directory with everything buffered written to the live file.
    ghost function Flushed(): map<string, bytes>
      requires CURRENT in files
      reads this
    {
      files[CURRENT := files[CURRENT] + buffered]
    }

    // NewDirectorySink, on any directory. What is in the live file counts as one record.
    constructor (cfg: Config, files: map<string, bytes>)
      requires cfg.maxBytes > 0
      ensures Valid() && open && segments == [] && buffered == []
      ensures this.cfg == cfg && this.files == if CURRENT in files then files else files[CURRENT := []]
      ensures written == if this.files[CURRENT] == [] then [] else [this.files[CURRENT]]
      ensures foreign == RotatedNames(files) && steady == (foreign == {}) && Late()
    {
      this.cfg := cfg;
      this.files := files;
      buffered, size, open := [], 0, false;
      segments, live, written := [], [], [];
      foreign, steady := RotatedNames(files), RotatedNames(files) == {};
      new;
      FreshDir(files, cfg.maxFiles);
      if CURRENT !in files {
        CurrentKeepsDir(files, [], foreign, cfg.maxFiles, steady, []);
      }
      hide DirOk, LiveFits, HistoryFits, RotatedNames;
      OpenCurrent();
      if this.files[CURRENT] != [] {
        live, written := [this.files[CURRENT]], [this.files[CURRENT]];
      }
      FirstRecord(this.files, cfg.maxBytes);
    }

    lemma FirstRecord(files: map<string, bytes>, maxBytes: nat)
      requires CURRENT in files
      ensures var found := if files[CURRENT] == [] then [] else [files[CURRENT]];
              LiveFits(files, [], found, |files[CURRENT]|, maxBytes) && HistoryFits(found, [], found, maxBytes)
    {
      FlattenOne(files[CURRENT]);
      assert Flatten<byte>([]) == [] && files[CURRENT] + [] == files[CURRENT];
    }

    // A new sink on the directory a closed one left continues where that one stopped.
    constructor Reopen(previous: DirectorySink)
      requires previous.Valid() && !previous.open && previous.buffered == []
      ensures Valid() && open && cfg == previous.cfg && files == previous.files
      ensures written == previous.written && segments == previous.segments && steady == previous.steady
      ensures live == previous.live
    {
      cfg, foreign, files := previous.cfg, previous.foreign, previous.files;
      buffered, size, open := [], 0, false;
      segments, live, written, steady := previous.segments, previous.live, previous.written, previous.steady;
      new;
      assert files[CURRENT] + [] == files[CURRENT];
      OpenCurrent();
    }

    // openCurrent: creates the live file or appends to it; the size is that of the file.
    method OpenCurrent()
      modifies this`files, this`size, this`open
      ensures files == if CURRENT in old(files) then old(files) else old(files)[CURRENT := []]
      ensures size == |files[CURRENT]| && open
    {
      if CURRENT !in files {
        files := files[CURRENT := []];
      }
      size, open := |files[CURRENT]|, true;
    }

    // w.Flush()
    method FlushBuffer()
      requires Valid()
      modifies this`files, this`buffered
      ensures Valid() && buffered == [] && files == old(Flushed())
    {
      CurrentKeepsDir(files, segments, foreign, cfg.maxFiles, steady, files[CURRENT] + buffered);
      hide DirOk, HistoryFits, Flatten, SizeOk, RecordsOf;
      assert files[CURRENT] + buffered + [] == files[CURRENT] + buffered;
      files := files[CURRENT := files[CURRENT] + buffered];
      buffered := [];
    }

    // rotationPath: the first of a thousand names that is free.
    method RotationPath(now: N.Stamp) returns (n: Option<nat>)
      ensures n.Some? ==> FirstFree(files, now, n.value)
      ensures n.None? ==> AllTaken(files, now, 1000)
    {
      for i := 0 to 1000
        invariant AllTaken(files, now, i)
      {
        if N.Name(N.Key(now, i)) !in files {
          return Some(i);
        }
      }
      return None;
    }

    // rotatedFiles
    method RotatedFiles() returns (names: seq<string>)
      ensures names == SortedNames(RotatedNames(files))
    {
      names := SortNames(set n | n in files && N.IsRotationName(n));
      SortedUnique(names, SortedNames(RotatedNames(files)));
    }

    // enforceRetention: the oldest files by name go until maxFiles are left.
    method EnforceRetention()
      modifies this`files
      ensures files == Retained(old(files), cfg.maxFiles)
    {
      hide N.IsRotationName, SortedNames;
      if cfg.maxFiles == 0 {
        return;
      }
      var names := RotatedFiles();
      ghost var all, gone := names, 0;
      while |names| > cfg.maxFiles
        invariant 0 <= gone <= |all| && names == all[gone..]
        invariant files == old(files) - SetOf(all[..gone])
        invariant gone > 0 ==> |names| >= cfg.maxFiles
        decreases |names|
      {
        assert all[..gone + 1] == all[..gone] + [names[0]];
        files := files - {names[0]};
        names := names[1..];
        gone := gone + 1;
      }
      assert all[..gone] == OldestOf(all, cfg.maxFiles);
    }

    // rotate, for any reading of the clock. It fails only if all thousand names of that time are taken.
    method Rotate(now: N.Stamp) returns (ok: bool, ghost n: nat)
      requires Valid() && open && live != [] && N.ValidStamp(now)
      modifies this`files, this`buffered, this`size, this`open, this`segments, this`live, this`steady
      ensures Valid() && ok == open && buffered == []
      ensures ok ==> live == [] && size == 0 && FirstFree(old(Flushed()), now, n)
      ensures ok ==> files == AfterRotation(old(Flushed()), N.Name(N.Key(now, n)), cfg.maxFiles)
      ensures ok ==> segments == old(segments) + [Segment(N.Key(now, n), old(live))]
      ensures ok ==> steady == (old(steady) && ClockOk(old(segments), now, cfg.maxFiles))
      ensures !ok ==> segments == old(segments) && live == old(live) && steady == old(steady)
      ensures !ok ==> files == old(Flushed()) && AllTaken(files, now, 1000)
    {
      hide DirOk, HistoryFits, SizeOk, RecordsOf, N.ValidStamp, ClockOk, AllTaken, Retained;
      FlushBuffer();
      open := false;
      var attempt := RotationPath(now);
      if attempt.None? {
        return false, 0;
      }
      n := attempt.value;
      RenameAndReopen(now, attempt.value);
      ok := true;
    }

    // The rest of rotate, with the target chosen.
    method RenameAndReopen(now: N.Stamp, n: nat)
      requires Valid() && buffered == [] && live != [] && N.ValidStamp(now) && FirstFree(files, now, n)
      modifies this`files, this`size, this`open, this`segments, this`live, this`steady
      ensures Valid() && open && live == [] && size == 0
      ensures files == AfterRotation(old(files), N.Name(N.Key(now, n)), cfg.maxFiles)
      ensures segments == old(segments) + [Segment(N.Key(now, n), old(live))]
      ensures steady == (old(steady) && ClockOk(old(segments), now, cfg.maxFiles))
    {
      LiveIsWhole();
      RotationKeepsDir(files, segments, foreign, cfg.maxFiles, steady, now, n, live);
      hide DirOk, LiveFits, HistoryFits, SizeOk, RecordsOf, Flatten, ClockOk, Retained, Renamed, N.Name, AfterRotation;
      MoveAside(now, n);
      NewLive(files, buffered, cfg.maxBytes);
      hide *;
      Account(N.Key(now, n), steady && ClockOk(segments, now, cfg.maxFiles));
    }

    // os.Rename, enforceRetention, openCurrent
    method MoveAside(now: N.Stamp, n: nat)
      requires CURRENT in files && N.ValidKey(N.Key(now, n))
      modifies this`files, this`size, this`open
      ensures files == AfterRotation(old(files), N.Name(N.Key(now, n)), cfg.maxFiles)
      ensures files[CURRENT] == [] && size == 0 && open
    {
      RotationInSteps(files, now, n, cfg.maxFiles);
      hide Retained, Renamed, N.Name, AfterRotation, N.ValidKey;
      files := Renamed(files, N.Name(N.Key(now, n)));
      EnforceRetention();
      OpenCurrent();
    }

    // The live records become a segment.
    ghost method Account(key: N.Key, stillSteady: bool)
      requires cfg.maxBytes > 0 && LiveFits(files, buffered, [], size, cfg.maxBytes)
      requires HistoryFits(written, segments, live, cfg.maxBytes) && live != [] && SizeOk(live, cfg.maxBytes)
      requires DirOk(files, segments + [Segment(key, live)], foreign, cfg.maxFiles, stillSteady)
      modifies this`segments, this`live, this`steady
      ensures Valid() && segments == old(segments) + [Segment(key, old(live))] && live == [] && steady == stillSteady
    {
      hide DirOk, LiveFits, HistoryFits, SizeOk, RecordsOf, Flatten;
      HistoryRotates(written, segments, live, key, cfg.maxBytes);
      segments, live, steady := segments + [Segment(key, live)], [], stillSteady;
    }

    lemma NewLive(files: map<string, bytes>, buffered: bytes, maxBytes: nat)
      requires CURRENT in files && files[CURRENT] == [] && buffered == []
      ensures LiveFits(files, buffered, [], 0, maxBytes)
    {
      assert Flatten<byte>([]) == [];
    }

    lemma LiveIsWhole()
      requires LiveOk() && buffered == []
      ensures CURRENT in files && files[CURRENT] == Flatten(live) && SizeOk(live, cfg.maxBytes)
    {
      assert files[CURRENT] + [] == files[CURRENT];
    }

    // w.Write: the buffered writer takes the record; spill is how many of the bytes it holds it writes
    // through to the file now.
    method Append(record: bytes, spill: nat)
      requires Valid() && (live == [] || |Flatten(live)| + |record| <= cfg.maxBytes) && record != []
      modifies this`files, this`buffered, this`size, this`live, this`written
      ensures Valid() && live == old(live) + [record] && written == old(written) + [record]
      ensures forall x :: x != CURRENT ==> (x in files <==> x in old(files)) && (x in files ==> files[x] == old(files)[x])
    {
      hide Flatten, RecordsOf, DirOk, SizeOk, LiveFits, HistoryFits;
      assert CURRENT in files by { CurrentThere(); }
      var all := buffered + record;
      var k := if spill <= |all| then spill else |all|;
      LiveGrows(files, buffered, live, size, cfg.maxBytes, record, k);
      CurrentKeepsDir(files, segments, foreign, cfg.maxFiles, steady, files[CURRENT] + all[..k]);
      HistoryGrows(written, segments, live, record, cfg.maxBytes);
      files := files[CURRENT := files[CURRENT] + all[..k]];
      buffered := all[k..];
      size := size + |record|;
      live, written := live + [record], written + [record];
    }

    lemma CurrentThere()
      requires LiveOk()
      ensures CURRENT in files
    {
    }

    predicate NeedsRotation(length: nat)
      reads this
    {
      size > 0 && size + length > cfg.maxBytes
    }

    // The live file makes room for the record, by rotating if it has to.
    method MakeRoom(record: bytes, now: N.Stamp) returns (ok: bool, ghost n: nat)
      requires Valid() && open && N.ValidStamp(now)
      modifies this`files, this`buffered, this`size, this`open, this`segments, this`live, this`steady
      ensures Valid() && ok == open
      ensures ok ==> live == [] || |Flatten(live)| + |record| <= cfg.maxBytes
      ensures !old(NeedsRotation(|record|)) ==> ok && unchanged(this)
      ensures old(NeedsRotation(|record|)) && ok ==>
                && live == [] && FirstFree(old(Flushed()), now, n)
                && files == AfterRotation(old(Flushed()), N.Name(N.Key(now, n)), cfg.maxFiles)
                && segments == old(segments) + [Segment(N.Key(now, n), old(live))]
                && steady == (old(steady) && ClockOk(old(segments), now, cfg.maxFiles))
      ensures !ok ==> segments == old(segments) && live == old(live) && steady == old(steady) && AllTaken(old(Flushed()), now, 1000)
      ensures old(Late()) && ok ==> LateBefore(segments, live, cfg.maxBytes, record)
    {
      EmptyLive();
      ghost var late := Late();
      hide Flatten, RecordsOf, DirOk, SizeOk, AllTaken, FirstFree, ClockOk, AfterRotation, N.ValidStamp, N.Name, RotatedLate, LateBefore;
      ok, n := true, 0;
      if size > 0 && size + |record| > cfg.maxBytes {
        assert |Flatten(live)| + |record| > cfg.maxBytes;
        ok, n := Rotate(now);
      }
      if late {
        LateSteps(old(segments), old(live), cfg.maxBytes, N.Key(now, n), record);
      }
    }

    // WriteRecord with the formatted record, which is never empty, at any reading of the clock. It rotates
    // only between records, and fails only if that is impossible.
    method WriteRecord(record: bytes, now: N.Stamp, spill: nat) returns (ok: bool, ghost n: nat)
      requires Valid() && open && record != [] && N.ValidStamp(now)
      modifies this`files, this`buffered, this`size, this`open, this`segments, this`live, this`written, this`steady
      ensures Valid() && ok == open
      ensures written == if ok then old(written) + [record] else old(written)
      ensures !old(NeedsRotation(|record|)) ==>
                ok && segments == old(segments) && steady == old(steady) && live == old(live) + [record]
                && files - {CURRENT} == old(files) - {CURRENT}
      ensures old(NeedsRotation(|record|)) && ok ==>
                && live == [record] && FirstFree(old(Flushed()), now, n)
                && files - {CURRENT} == AfterRotation(old(Flushed()), N.Name(N.Key(now, n)), cfg.maxFiles) - {CURRENT}
                && segments == old(segments) + [Segment(N.Key(now, n), old(live))]
                && steady == (old(steady) && ClockOk(old(segments), now, cfg.maxFiles))
      ensures !ok ==> segments == old(segments) && live == old(live) && steady == old(steady) && AllTaken(old(Flushed()), now, 1000)
      ensures old(Late()) ==> Late()
    {
      hide Flatten, RecordsOf, DirOk, SizeOk, AllTaken, FirstFree, ClockOk, AfterRotation, LiveFits, Valid, N.ValidStamp, N.Name,
           RotatedLate, LateBefore;
      ok, n := MakeRoom(record, now);
      if ok {
        if LateBefore(segments, live, cfg.maxBytes, record) {
          LateIsKept(segments, live, cfg.maxBytes, record);
        }
        Append(record, spill);
      }
    }

    lemma StartsEmpty()
      requires Valid() && written == [] && segments == []
      ensures size == 0 && live == []
    {
    }

    lemma EmptyLive()
      requires LiveOk()
      ensures size == 0 <==> live == []
    {
      if live != [] {
        assert live[0] in live;
      }
    }

    method Flush()
      requires Valid()
      modifies this`files, this`buffered
      ensures Valid() && (open ==> buffered == [] && files == old(Flushed()))
    {
      if open {
        FlushBuffer();
      }
    }

    method Close()
      requires Valid()
      modifies this`files, this`buffered, this`open
      ensures Valid() && !open && (old(open) ==> buffered == [])
    {
      if open {
        FlushBuffer();
      }
      open := false;
    }
  }

  /* ---- What a reader of the directory finds ---- */

  // The files of a listing, one after the other.
  function ReadAll(files: map<string, bytes>, names: seq<string>): bytes {
    if names == [] then []
    else (if names[0] in files then files[names[0]] else []) + ReadAll(files, names[1..])
  }

  lemma ReadAllHead(files: map<string, bytes>, name: string, rest: seq<string>)
    requires name in files
    ensures ReadAll(files, [name] + rest) == files[name] + ReadAll(files, rest)
  {
    assert ([name] + rest)[1..] == rest;
  }

  lemma NamesHead(s: Segment, rest: seq<Segment>)
    ensures Names([s] + rest) == [N.Name(s.key)] + Names(rest)
  {
  }

  // One more segment at the front of a listing.
  lemma ReadAllCons(files: map<string, bytes>, s: Segment, rest: seq<Segment>)
    requires IsStored(files, s)
    requires ReadAll(files, Names(rest)) == Flatten(RecordsOf(rest))
    ensures ReadAll(files, Names([s] + rest)) == Flatten(RecordsOf([s] + rest))
  {
    hide Flatten, RecordsOf, ReadAll, Names, N.Name;
    NamesHead(s, rest);
    ReadAllHead(files, N.Name(s.key), Names(rest));
    RecordsHead(s, rest);
    FlattenConcat(s.records, RecordsOf(rest));
  }

  lemma {:induction false} ReadAllStored(files: map<string, bytes>, ss: seq<Segment>)
    requires forall i :: 0 <= i < |ss| ==> IsStored(files, ss[i])
    ensures ReadAll(files, Names(ss)) == Flatten(RecordsOf(ss))
  {
    if ss == [] {
      assert Flatten(RecordsOf([])) == [];
    } else {
      hide *;
      StoredTail(files, ss);
      ReadAllStored(files, ss[1..]);
      ReadAllCons(files, ss[0], ss[1..]);
      HeadAndTail(ss);
    }
  }

  lemma StoredTail(files: map<string, bytes>, ss: seq<Segment>)
    requires ss != [] && forall i :: 0 <= i < |ss| ==> IsStored(files, ss[i])
    ensures forall i :: 0 <= i < |ss[1..]| ==> IsStored(files, ss[1..][i])
  {
  }

  lemma HeadAndTail(ss: seq<Segment>)
    requires ss != []
    ensures ss == [ss[0]] + ss[1..]
  {
  }

  lemma RecordsHead(s: Segment, rest: seq<Segment>)
    ensures RecordsOf([s] + rest) == s.records + RecordsOf(rest)
  {
    assert Parts([s] + rest) == [s.records] + Parts(rest);
    FlattenHead(s.records, Parts(rest));
  }

  // A sorted listing of the rotated files, as a reader of the directory would make it.
  ghost predicate IsListing(files: map<string, bytes>, names: seq<string>) {
    Sorted(names) && forall x :: x in names <==> x in files && N.IsRotationName(x)
  }

  // In every state: the rotated files in sorted order followed by the live file (with what is still
  // buffered) are the joined records from the k-th on; k is where the oldest kept segment starts. Nothing
  // is missing without retention; with it exactly the newest min(rotations, MaxFiles) segments are there.
  lemma DirectoryHoldsTheStream(sink: DirectorySink, names: seq<string>) returns (k: nat)
    requires sink.Valid() && sink.steady && IsListing(sink.files, names)
    ensures |names| == Kept(|sink.segments|, sink.cfg.maxFiles)
    ensures k == |RecordsOf(sink.segments[..sink.First()])| <= |sink.written|
    ensures sink.cfg.maxFiles == 0 ==> k == 0
    ensures CURRENT in sink.files && forall n :: n in names ==> n in sink.files
    ensures ReadAll(sink.files, names) + (sink.files[CURRENT] + sink.buffered) == Flatten(sink.written[k..])
  {
    hide Flatten, RecordsOf, KeysOk, OnDisk, Sorted, SizeOk, N.Name, N.IsRotationName, ReadAll;
    var ss, first := sink.segments, sink.First();
    k := |RecordsOf(ss[..first])|;
    ListedIsJoined(sink.files, ss, first, sink.cfg.maxFiles, names);
    KeptSuffix(ss, first, sink.live, sink.written);
    FlattenConcat(RecordsOf(ss[first..]), sink.live);
    NothingFlat(ss);
  }

  lemma NothingFlat(ss: seq<Segment>)
    ensures RecordsOf(ss[..0]) == []
  {
  }

  lemma ListedIsJoined(files: map<string, bytes>, ss: seq<Segment>, first: nat, maxFiles: nat, names: seq<string>)
    requires KeysOk(ss, maxFiles) && OnDisk(files, ss, first) && first <= |ss| && IsListing(files, names)
    ensures |names| == |ss| - first && forall n :: n in names ==> n in files
    ensures ReadAll(files, names) == Flatten(RecordsOf(ss[first..]))
  {
    assert forall i :: 0 <= i < |ss| - first ==> IsStored(files, ss[first..][i]);
    hide Flatten, RecordsOf, KeysOk, OnDisk, IsStored, Sorted, N.Name, N.IsRotationName, ReadAll;
    ListingIsKept(files, ss, first, maxFiles, names);
    ReadAllStored(files, ss[first..]);
  }

  lemma KeptSuffix(ss: seq<Segment>, first: nat, live: seq<bytes>, written: seq<bytes>)
    requires first <= |ss| && written == RecordsOf(ss) + live
    ensures var k := |RecordsOf(ss[..first])|; k <= |written| && written[k..] == RecordsOf(ss[first..]) + live
  {
    hide RecordsOf;
    assert ss == ss[..first] + ss[first..];
    RecordsConcat(ss[..first], ss[first..]);
    SuffixFrom(RecordsOf(ss[..first]), RecordsOf(ss[first..]), live, written);
  }

  // For every clock: no file of the sink is over the limit unless it is a single record.
  lemma FilesWithinLimit(sink: DirectorySink, names: seq<string>)
    requires sink.Valid() && IsListing(sink.files, names)
    ensures forall n :: n in names && n !in sink.foreign ==>
              n in sink.files && (|sink.files[n]| <= sink.cfg.maxBytes || IsSingleRecord(sink, n))
    ensures CURRENT in sink.files && |sink.files[CURRENT]| <= |Flatten(sink.live)|
    ensures |Flatten(sink.live)| <= sink.cfg.maxBytes || |sink.live| == 1
  {
    hide Flatten, N.Name, N.IsRotationName, KeysOk, OnDisk, RecordsOf;
    forall n | n in names && n !in sink.foreign
      ensures n in sink.files && (|sink.files[n]| <= sink.cfg.maxBytes || IsSingleRecord(sink, n))
    {
      assert IsSegmentFile(sink.files, n, sink.segments);
      var j :| 0 <= j < |sink.segments| && n == N.Name(sink.segments[j].key) && sink.files[n] == Flatten(sink.segments[j].records);
      assert sink.segments[j] in sink.segments;
    }
  }

  // For every clock: with the record that was written after it a rotated segment would have passed the limit, so
  // there is no rotation that need not be.
  lemma RotatedOnlyWhenFull(sink: DirectorySink, i: nat)
    requires sink.Valid() && sink.Late() && i < |sink.segments|
    ensures var k := |RecordsOf(sink.segments[..i + 1])|;
            k < |sink.written| && |Flatten(sink.segments[i].records)| + |sink.written[k]| > sink.cfg.maxBytes
  {
    hide Flatten, RecordsOf;
    NextRecordIsNext(sink.segments, sink.live, sink.written, sink.cfg.maxBytes, i);
  }

  ghost predicate IsSingleRecord(sink: DirectorySink, name: string)
    reads sink
  {
    exists s :: s in sink.segments && name == N.Name(s.key) && |s.records| == 1
                && name in sink.files && sink.files[name] == Flatten(s.records)
  }

  // For every clock: without retention each segment is in a file of its own, whatever the order of the names.
  lemma NothingIsLostWithoutRetention(sink: DirectorySink, i: nat, j: nat)
    requires sink.Valid() && sink.cfg.maxFiles == 0 && i < j < |sink.segments|
    ensures IsStored(sink.files, sink.segments[i]) && IsStored(sink.files, sink.segments[j])
    ensures N.Name(sink.segments[i].key) != N.Name(sink.segments[j].key)
    ensures sink.written == RecordsOf(sink.segments) + sink.live
  {
  }

  lemma SuffixFrom(gone: seq<bytes>, kept: seq<bytes>, live: seq<bytes>, all: seq<bytes>)
    requires all == gone + kept + live
    ensures |gone| <= |all| && all[|gone|..] == kept + live
  {
  }
}
