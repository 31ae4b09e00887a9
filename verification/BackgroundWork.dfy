// A compaction from the picked tables to the installed outputs.
module BackgroundWork {
  import opened Basics
  import opened Compaction
  import opened DBImpls
  import opened Entries
  import opened Mergers
  import opened Store
  import opened VersionSets

  // A table further down covers the key, so that it is not at its base level.
  ghost predicate CoveredBelow(less: KeyOrder, tables: seq<seq<Table>>, level: nat, k: Key) {
    exists j, i :: level + 2 <= j < |tables| && 0 <= i < |tables[j]| && !less(k, tables[j][i].smallest.key)
                   && !less(tables[j][i].largest.key, k)
  }

  // What the version set picks, the upper inputs ending between keys other than in
  // level 0, and the lower ones not within a base key.
  ghost predicate CleanlyPicked(less: KeyOrder, tables: seq<seq<Table>>, level: nat, upper: seq<Table>,
                                lower: seq<Table>)
    requires level + 1 < |tables|
  {
    && upper != [] && Whole(less, level, tables[level], upper)
       && lower == Overlapping(less, tables[level + 1], RangeOf(less, upper))
    && (level == 0 || !SplitsKey(tables[level], upper))
    && (SplitsKey(tables[level + 1], lower) ==> CoveredBelow(less, tables, level, lower[|lower| - 1].largest.key))
  }

  function Metadata(files: seq<Table>): seq<FileMetaData> {
    seq(|files|, i requires 0 <= i < |files| => FileMetaData(files[i].smallest.key, files[i].largest.key))
  }

  function AllMetadata(tables: seq<seq<Table>>): (files: seq<seq<FileMetaData>>)
    ensures |files| == |tables|
  {
    seq(|tables|, j requires 0 <= j < |tables| => Metadata(tables[j]))
  }

  lemma MetadataInOrder(less: KeyOrder, files: seq<Table>)
    requires LevelOk(less, 1, files)
    ensures InOrder(less, Metadata(files))
  {
    forall i | 0 <= i < |files|
      ensures !less(files[i].largest.key, files[i].smallest.key)
    {
      KeysOrdered(less, files[i]);
    }
  }

  lemma MetadataCovers(less: KeyOrder, files: seq<Table>, e: Entry)
    requires LevelOk(less, 0, files) && e in InTables(files)
    ensures exists i :: 0 <= i < |Metadata(files)| && Covers(less, Metadata(files)[i], e.key)
  {
    var i := TableOf(files, e);
    assert TableOk(less, files[i]);
    KeysOrdered(less, files[i]);
    assert Covers(less, Metadata(files)[i], e.key);
  }

  // The base keys of the merge are as the cut wants them.
  lemma BaseKeysOk(c: Compactor, tables: seq<seq<Table>>, upper: seq<Table>, lower: seq<Table>, input: seq<Entry>)
    requires |tables| == NUM_LEVELS && c.files == AllMetadata(tables)
    requires forall j :: 0 <= j < NUM_LEVELS ==> LevelOk(c.less, j, tables[j])
    requires Range(input) == InTables(upper) + InTables(lower)
    ensures BaseOk(tables, c.level, upper, lower, c.BaseKeys(input))
  {
    forall j, o: Entry | 0 <= j < NUM_LEVELS && o in Contents(tables)[j]
      ensures exists i :: 0 <= i < |c.files[j]| && Covers(c.less, c.files[j][i], o.key)
    {
      assert LevelOk(c.less, j, tables[j]);
      MetadataCovers(c.less, tables[j], o);
      assert c.files[j] == Metadata(tables[j]);
    }
    hide Metadata;
    BaseKeysAreBase(c, Contents(tables), input);
    hide InTables;
    hide LevelOk;
    forall e, o, j | e in InTables(upper) + InTables(lower) && c.level + 2 <= j < |tables| && o in InTables(tables[j])
                     && e.key == o.key
      ensures e.key !in c.BaseKeys(input)
    {
      assert e in Range(input) && o in Contents(tables)[j];
    }
  }

  lemma CoveredIsNoBase(c: Compactor, tables: seq<seq<Table>>, k: Key)
    requires |tables| == NUM_LEVELS && c.files == AllMetadata(tables) && CoveredBelow(c.less, tables, c.level, k)
    ensures !c.IsBase(k)
  {
    var j, i :| c.level + 2 <= j < |tables| && 0 <= i < |tables[j]|
                && !c.less(k, tables[j][i].smallest.key) && !c.less(tables[j][i].largest.key, k);
    assert c.files[j] == Metadata(tables[j]) && Covers(c.less, c.files[j][i], k);
  }

  lemma BaseKeysUncovered(c: Compactor, tables: seq<seq<Table>>, input: seq<Entry>)
    requires |tables| == NUM_LEVELS && c.files == AllMetadata(tables)
    ensures forall k :: k in c.BaseKeys(input) ==> !CoveredBelow(c.less, tables, c.level, k)
  {
    forall k | k in c.BaseKeys(input)
      ensures !CoveredBelow(c.less, tables, c.level, k)
    {
      if CoveredBelow(c.less, tables, c.level, k) { CoveredIsNoBase(c, tables, k); }
    }
  }

  // Whole tables of level 0 are taken.
  lemma TakesWholeFiles(less: KeyOrder, files: seq<Table>, level0: seq<set<Entry>>, upper: seq<Table>)
    requires LevelOk(less, 0, files) && upper != [] && Whole(less, 0, files, upper)
    requires |files| == |level0| && forall i :: 0 <= i < |level0| ==> InTables([files[i]]) == level0[i]
    ensures WholeFiles(level0, InTables(upper))
  {
    var r :| Closed(less, files, r) && upper == Overlapping(less, files, r);
    InOverlapping(less, files, r);
    forall i | 0 <= i < |level0|
      ensures level0[i] <= InTables(upper) || level0[i] !! InTables(upper)
    {
      var t := files[i];
      assert t in [t] && level0[i] == InTables([t]);
      if t !in upper {
        forall e | e in t.entries && e in InTables(upper)
          ensures false
        {
          var u :| u in upper && e in u.entries;
          KeysOrdered(less, u);
          KeyOutside(less, t, r, e.key);
        }
      }
    }
  }

  // Started and finished: two steps of the store.
  ghost predicate Compacted(s: State, t: State, level: nat, upper: set<Entry>, lower: set<Entry>) {
    exists w: Work, mid: State ::
      && w.level == level && w.upper == upper && w.lower == lower
      && Steps(s, StartCompaction(w), mid) && Steps(mid, FinishCompaction, t)
  }

  lemma CutFits(less: KeyOrder, tables: seq<seq<Table>>, level: nat, upper: seq<Table>, lower: seq<Table>,
                base: set<Key>)
    requires |tables| == NUM_LEVELS && (forall j :: 0 <= j < NUM_LEVELS ==> LevelOk(less, j, tables[j]))
    requires level + 1 < NUM_LEVELS
    requires CleanlyPicked(less, tables, level, upper, lower) && BaseOk(tables, level, upper, lower, base)
    requires forall k :: k in base ==> !CoveredBelow(less, tables, level, k)
    ensures InTables(upper) <= Contents(tables)[level] && InTables(lower) <= Contents(tables)[level + 1]
    ensures CleanCut(Contents(tables), Work(level, InTables(upper), InTables(lower), 0, base))
  {
    assert LevelOk(less, level, tables[level]);
    InputsAreTables(less, level, tables[level], upper);
    InOverlapping(less, tables[level + 1], RangeOf(less, upper));
    PickedCutIsCleanIff(less, tables, level, upper, lower, 0, base);
  }

  lemma LaidOut(less: KeyOrder, tables: seq<seq<Table>>, levels: seq<set<Entry>>, level0: seq<set<Entry>>, level: nat)
    requires TablesAre(less, tables, levels, level0)
    ensures TotalOrder(less) && |AllMetadata(tables)| == NUM_LEVELS == |tables|
    ensures forall j :: level + 2 <= j < NUM_LEVELS ==> InOrder(less, AllMetadata(tables)[j])
  {
    assert LevelOk(less, 0, tables[0]);
    forall j | level + 2 <= j < NUM_LEVELS
      ensures InOrder(less, AllMetadata(tables)[j])
    {
      assert LevelOk(less, j, tables[j]) && LevelOk(less, 1, tables[j]);
      MetadataInOrder(less, tables[j]);
    }
  }

  lemma WholeFilesReady(less: KeyOrder, tables: seq<seq<Table>>, levels: seq<set<Entry>>, level0: seq<set<Entry>>,
                        level: nat, upper: seq<Table>, lower: seq<Table>)
    requires TablesAre(less, tables, levels, level0) && level + 1 < NUM_LEVELS
    requires CleanlyPicked(less, tables, level, upper, lower)
    ensures level == 0 ==> WholeFiles(level0, InTables(upper))
  {
    assert LevelOk(less, 0, tables[0]);
    if level == 0 { TakesWholeFiles(less, tables[0], level0, upper); }
  }

  // What starting and finishing a compaction ask for.
  lemma Ready(c: Compactor, tables: seq<seq<Table>>, levels: seq<set<Entry>>, level0: seq<set<Entry>>,
              upper: seq<Table>, lower: seq<Table>, input: seq<Entry>)
    requires TablesAre(c.less, tables, levels, level0) && c.level + 1 < NUM_LEVELS
    requires CleanlyPicked(c.less, tables, c.level, upper, lower)
    requires c.files == AllMetadata(tables) && Range(input) == InTables(upper) + InTables(lower)
    ensures |levels| == NUM_LEVELS && InTables(upper) <= levels[c.level] && InTables(lower) <= levels[c.level + 1]
    ensures CleanCut(levels, Work(c.level, InTables(upper), InTables(lower), 0, c.BaseKeys(input)))
    ensures c.level == 0 ==> WholeFiles(level0, InTables(upper))
  {
    hide InTables;
    hide LevelOk;
    hide CleanCut;
    hide WholeFiles;
    hide CleanlyPicked;
    hide BaseOk;
    WholeFilesReady(c.less, tables, levels, level0, c.level, upper, lower);
    BaseKeysOk(c, tables, upper, lower, input);
    BaseKeysUncovered(c, tables, input);
    hide CoveredBelow;
    CutFits(c.less, tables, c.level, upper, lower, c.BaseKeys(input));
  }

  lemma CompactedBy(s: State, w: Work, mid: State, t: State)
    requires Steps(s, StartCompaction(w), mid) && Steps(mid, FinishCompaction, t)
    ensures Compacted(s, t, w.level, w.upper, w.lower)
  {
    hide Steps;
  }

  // No entry of the levels is beyond the last sequence number.
  lemma NumbersBounded(s: State, w: Work, input: seq<Entry>)
    requires Inv(s) && s.work == Some(w) && Range(input) == w.upper + w.lower
    ensures w.smallest <= s.lastSequence && forall e :: e in input ==> e.seqno <= s.lastSequence
  {
    forall e | e in input
      ensures e in Union(s.levels)
    {
      assert e in Range(input);
      InUnion(s.levels, if e in w.upper then w.level else w.level + 1, e);
    }
  }

  // ----- The merged input -----

  function Concat(files: seq<Table>): seq<Entry> {
    if files == [] then [] else Concat(files[..|files| - 1]) + files[|files| - 1].entries
  }

  lemma {:induction false} InConcat(files: seq<Table>)
    ensures forall e :: e in Concat(files) <==> e in InTables(files)
  {
    if files != [] {
      var n := |files| - 1;
      InConcat(files[..n]);
      assert files == files[..n] + [files[n]];
      forall e | e in InTables(files[..n])
        ensures e in InTables(files)
      {
        var t :| t in files[..n] && e in t.entries;
        assert t in files;
      }
      forall e | e in InTables(files)
        ensures e in InTables(files[..n]) || e in files[n].entries
      {
        var t :| t in files && e in t.entries;
        assert t in files[..n] || t == files[n];
      }
      forall e | e in files[n].entries
        ensures e in InTables(files)
      {
        assert files[n] in files;
      }
    }
  }

  // The tables of a run, one after the other, are sorted.
  lemma {:induction false} ConcatSorted(less: KeyOrder, files: seq<Table>)
    requires LevelOk(less, 1, files)
    ensures Sorted(less, Concat(files))
  {
    if files != [] {
      var n := |files| - 1;
      var before, last := Concat(files[..n]), files[n].entries;
      FewerOk(less, files);
      ConcatSorted(less, files[..n]);
      InConcat(files[..n]);
      assert TableOk(less, files[n]);
      forall i, j | 0 <= i < |before| && 0 <= j < |last|
        ensures Precedes(less, before[i], last[j])
      {
        assert before[i] in before;
        var k := TableOf(files[..n], before[i]);
        Follows(less, files, k, n, before[i], last[j]);
      }
    }
  }

  ghost predicate Unlike(a: Table, b: Table) {
    forall e, f :: e in a.entries && f in b.entries ==> e.key != f.key || e.seqno != f.seqno
  }

  // No two tables share an internal key.
  ghost predicate ApartTables(files: seq<Table>) {
    forall i, j :: 0 <= i < j < |files| ==> Unlike(files[i], files[j])
  }

  lemma {:induction false} OverlappingApart(less: KeyOrder, files: seq<Table>, r: Bounds)
    requires ApartTables(files)
    ensures ApartTables(Overlapping(less, files, r))
  {
    if files != [] {
      var n := |files| - 1;
      var before := Overlapping(less, files[..n], r);
      OverlappingApart(less, files[..n], r);
      InOverlapping(less, files[..n], r);
      hide Unlike;
      hide Overlaps;
      forall i | 0 <= i < |before|
        ensures Unlike(before[i], files[n])
      {
        assert before[i] in before;
        var k :| 0 <= k < n && files[..n][k] == before[i];
        assert files[k] == before[i];
      }
    }
  }

  function EntriesOfEach(files: seq<Table>): (children: seq<seq<Entry>>)
    ensures |children| == |files|
  {
    seq(|files|, i requires 0 <= i < |files| => files[i].entries)
  }

  // One child for each table of level 0, and one for the tables of a run.
  function Children(level: nat, upper: seq<Table>, lower: seq<Table>): seq<seq<Entry>> {
    (if level == 0 then EntriesOfEach(upper) else [Concat(upper)]) + if lower == [] then [] else [Concat(lower)]
  }

  lemma ChildrenHoldAll(level: nat, upper: seq<Table>, lower: seq<Table>)
    ensures AllOf(Children(level, upper, lower)) == InTables(upper) + InTables(lower)
  {
    InConcat(upper);
    InConcat(lower);
    var children := Children(level, upper, lower);
    forall e | e in InTables(upper)
      ensures e in AllOf(children)
    {
      var i := TableOf(upper, e);
      assert children[if level == 0 then i else 0] in children;
    }
    forall e | e in InTables(lower)
      ensures e in AllOf(children)
    {
      assert lower != [] ==> children[|children| - 1] in children;
    }
    forall e | e in AllOf(children)
      ensures e in InTables(upper) + InTables(lower)
    {
      var i, j := PlaceOf(children, e);
      if level == 0 && i < |upper| { assert upper[i] in upper; }
    }
  }

  lemma Level0Apart(files: seq<Table>, level0: seq<set<Entry>>)
    requires NewerAbove(level0)
    requires |files| == |level0| && forall i :: 0 <= i < |level0| ==> InTables([files[i]]) == level0[i]
    ensures ApartTables(files)
  {
    forall i, j | 0 <= i < j < |files|
      ensures Unlike(files[i], files[j])
    {
      forall e, f | e in files[i].entries && f in files[j].entries
        ensures e.key != f.key || e.seqno != f.seqno
      {
        assert files[i] in [files[i]] && files[j] in [files[j]];
        assert e in level0[i] && f in level0[j];
      }
    }
  }

  lemma PickedApart(less: KeyOrder, files: seq<Table>, upper: seq<Table>)
    requires ApartTables(files) && Whole(less, 0, files, upper)
    ensures ApartTables(upper)
  {
    var r :| Closed(less, files, r) && upper == Overlapping(less, files, r);
    OverlappingApart(less, files, r);
  }

  lemma StretchOk(less: KeyOrder, level: nat, files: seq<Table>, inputs: seq<Table>)
    requires level > 0 && LevelOk(less, level, files) && Whole(less, level, files, inputs)
    ensures LevelOk(less, 1, inputs)
  {
  }

  // Each child is sorted.
  lemma LowerSorted(less: KeyOrder, next: seq<Table>, r: Bounds)
    requires LevelOk(less, 1, next)
    ensures Sorted(less, Concat(Overlapping(less, next, r)))
  {
    var a, b := OverlappingIsStretch(less, next, r);
    hide Overlapping;
    assert LevelOk(less, 1, Overlapping(less, next, r));
    ConcatSorted(less, Overlapping(less, next, r));
  }

  lemma ChildrenSorted(less: KeyOrder, level: nat, files: seq<Table>, next: seq<Table>, upper: seq<Table>,
                       lower: seq<Table>)
    requires LevelOk(less, level, files) && LevelOk(less, level + 1, next) && upper != []
    requires Whole(less, level, files, upper)
    requires lower == Overlapping(less, next, RangeOf(less, upper))
    ensures forall i :: 0 <= i < |Children(level, upper, lower)| ==> Sorted(less, Children(level, upper, lower)[i])
  {
    assert LevelOk(less, 1, next);
    InputsAreTables(less, level, files, upper);
    LowerSorted(less, next, RangeOf(less, upper));
    if level == 0 {
      assert forall i :: 0 <= i < |upper| ==> upper[i] in upper;
      hide *;
      EachSorted(less, upper, lower);
    } else {
      StretchOk(less, level, files, upper);
      ConcatSorted(less, upper);
      hide Sorted;
      hide Concat;
      hide LevelOk;
      hide Whole;
      hide Overlapping;
    }
  }

  lemma EachSorted(less: KeyOrder, upper: seq<Table>, lower: seq<Table>)
    requires forall t :: t in upper ==> TableOk(less, t)
    requires Sorted(less, Concat(lower))
    ensures forall i :: 0 <= i < |Children(0, upper, lower)| ==> Sorted(less, Children(0, upper, lower)[i])
  {
    hide Sorted;
    hide Concat;
    assert forall i :: 0 <= i < |upper| ==> upper[i] in upper;
  }

  // No two children share an entry.
  lemma ChildrenApart(level: nat, upper: seq<Table>, lower: seq<Table>, levels: seq<set<Entry>>)
    requires NewerAbove(levels) && level + 1 < |levels| && InTables(upper) <= levels[level]
    requires InTables(lower) <= levels[level + 1]
    requires level == 0 ==> ApartTables(upper)
    ensures Apart(Children(level, upper, lower))
  {
    InConcat(upper);
    InConcat(lower);
    var children := Children(level, upper, lower);
    var n := if level == 0 then |upper| else 1;
    forall i, e: Entry | 0 <= i < n && e in children[i]
      ensures e in levels[level]
    {
      if level == 0 { assert upper[i] in upper; }
      assert e in InTables(upper);
    }
    forall i, j, e: Entry, f: Entry | 0 <= i < j < |children| && e in children[i] && f in children[j]
      ensures e.key != f.key || e.seqno != f.seqno
    {
      if j < n {
        assert level == 0 && Unlike(upper[i], upper[j]);
      } else {
        assert f in InTables(lower);
      }
    }
  }

  lemma ChildrenMergeable(less: KeyOrder, tables: seq<seq<Table>>, levels: seq<set<Entry>>, level0: seq<set<Entry>>,
                          level: nat, upper: seq<Table>, lower: seq<Table>)
    requires TablesAre(less, tables, levels, level0) && NewerAbove(levels) && NewerAbove(level0)
    requires level + 1 < NUM_LEVELS && CleanlyPicked(less, tables, level, upper, lower)
    ensures Mergeable(less, Children(level, upper, lower))
    ensures AllOf(Children(level, upper, lower)) == InTables(upper) + InTables(lower)
    ensures |levels| == NUM_LEVELS && InTables(upper) <= levels[level] && InTables(lower) <= levels[level + 1]
  {
    assert LevelOk(less, level, tables[level]) && LevelOk(less, level + 1, tables[level + 1]);
    hide LevelOk;
    hide Whole;
    hide Overlapping;
    InputsAreTables(less, level, tables[level], upper);
    InOverlapping(less, tables[level + 1], RangeOf(less, upper));
    ChildrenSorted(less, level, tables[level], tables[level + 1], upper, lower);
    if level == 0 {
      Level0Apart(tables[0], level0);
      PickedApart(less, tables[0], upper);
    }
    assert InTables(upper) <= levels[level] && InTables(lower) <= levels[level + 1];
    ChildrenHoldAll(level, upper, lower);
    ChildrenApart(level, upper, lower, levels);
  }

  // ----- The compaction -----

  lemma NumbersUpToLast(s: State)
    requires Inv(s)
    ensures forall e :: e in Union(s.levels) ==> e.seqno <= s.lastSequence
  {
  }

  lemma BothInUnion(levels: seq<set<Entry>>, level: nat, upper: set<Entry>, lower: set<Entry>)
    requires level + 1 < |levels| && upper <= levels[level] && lower <= levels[level + 1]
    ensures forall e :: e in upper + lower ==> e in Union(levels)
  {
    forall e | e in upper + lower
      ensures e in Union(levels)
    {
      InUnion(levels, if e in upper then level else level + 1, e);
    }
  }

  // MakeInputIterator, read from the first entry to the last.
  method MergeInputs(less: KeyOrder, ghost tables: seq<seq<Table>>, ghost levels: seq<set<Entry>>,
                     ghost level0: seq<set<Entry>>, level: nat, upper: seq<Table>, lower: seq<Table>, last: nat)
    returns (input: seq<Entry>)
    requires forall e :: e in Union(levels) ==> e.seqno <= last
    requires TablesAre(less, tables, levels, level0) && NewerAbove(levels) && NewerAbove(level0)
    requires level + 1 < NUM_LEVELS && CleanlyPicked(less, tables, level, upper, lower)
    ensures Sorted(less, input) && Range(input) == InTables(upper) + InTables(lower)
  {
    hide Mergeable;
    hide AllOf;
    hide Sorted;
    hide MergingIterator.Valid;
    hide TablesAre;
    hide CleanlyPicked;
    hide InTables;
    hide NewerAbove;
    ChildrenMergeable(less, tables, levels, level0, level, upper, lower);
    BothInUnion(levels, level, InTables(upper), InTables(lower));
    var it := new MergingIterator(less, last, Children(level, upper, lower));
    input := ReadAll(it);
  }

  // DoCompactionWork with its beginning and its end; where output files end is
  // left open.
  method DoCompaction(d: DBImpl, less: KeyOrder, tables: seq<seq<Table>>, level: nat, upper: seq<Table>,
                      lower: seq<Table>, stopBefore: nat -> bool, bigEnough: nat -> bool)
    requires d.Valid() && d.work.None? && d.lastSequence < MAX_SEQUENCE
    requires TablesAre(less, tables, d.Levels(), d.level0) && level + 1 < NUM_LEVELS
    requires CleanlyPicked(less, tables, level, upper, lower)
    modifies d
    ensures d.Valid() && Compacted(old(d.AsState()), d.AsState(), level, InTables(upper), InTables(lower))
  {
    hide DBImpl.Valid;
    hide DBImpl.Levels;
    hide Steps;
    hide TablesAre;
    hide CleanlyPicked;
    hide InTables;
    hide CleanCut;
    hide WholeFiles;
    hide Kept;
    hide Flat;
    hide Inv;
    hide TotalOrder;
    hide InOrder;
    hide Sorted;
    hide Compacted;
    hide NewerAbove;
    hide Compactor.IsBase;
    hide Compactor.BaseKeys;
    hide Compactor.NotPast;
    d.InvHolds();
    LaidOut(less, tables, d.Levels(), d.level0, level);
    d.Shape();
    ghost var s := d.AsState();
    NumbersUpToLast(s);
    var input := MergeInputs(less, tables, d.Levels(), d.level0, level, upper, lower, d.lastSequence);
    var c := new Compactor(less, level, AllMetadata(tables));
    Ready(c, tables, d.Levels(), d.level0, upper, lower, input);
    d.BeginCompaction(level, InTables(upper), InTables(lower), c.BaseKeys(input));
    ghost var mid := d.AsState();
    d.InvHolds();
    NumbersBounded(mid, d.work.value, input);
    var outputs := c.DoCompactionWork(input, d.work.value.smallest, seq(|input|, stopBefore), seq(|input|, bigEnough));
    d.InstallCompactionResults(Flat(outputs));
    CompactedBy(s, mid.work.value, mid, d.AsState());
  }

  lemma MoveReady(less: KeyOrder, tables: seq<seq<Table>>, s: State, level0: seq<set<Entry>>, level: nat,
                  upper: seq<Table>, lower: seq<Table>)
    requires Shaped(s) && s.work.None? && TablesAre(less, tables, s.levels, level0)
    requires level + 1 < NUM_LEVELS && CleanlyPicked(less, tables, level, upper, lower) && lower == []
    ensures Enabled(s, TrivialMove(level, InTables(upper)))
    ensures level == 0 ==> WholeFiles(level0, InTables(upper))
  {
    WholeFilesReady(less, tables, s.levels, level0, level, upper, lower);
    CutFits(less, tables, level, upper, lower, {});
    assert InTables(lower) == {};
  }

  // BackgroundCompaction, once the version set has picked: one table that
  // overlaps nothing below just moves down, unless too much lies below that.
  method BackgroundCompaction(d: DBImpl, less: KeyOrder, tables: seq<seq<Table>>, level: nat, upper: seq<Table>,
                              lower: seq<Table>, fewGrandparents: bool, stopBefore: nat -> bool,
                              bigEnough: nat -> bool)
    returns (moved: bool)
    requires d.Valid() && d.work.None? && d.lastSequence < MAX_SEQUENCE
    requires TablesAre(less, tables, d.Levels(), d.level0) && level + 1 < NUM_LEVELS
    requires CleanlyPicked(less, tables, level, upper, lower)
    modifies d
    ensures d.Valid() && moved == (|upper| == 1 && lower == [] && fewGrandparents)
    ensures moved ==> Steps(old(d.AsState()), TrivialMove(level, InTables(upper)), d.AsState())
    ensures !moved ==> Compacted(old(d.AsState()), d.AsState(), level, InTables(upper), InTables(lower))
  {
    hide DBImpl.Valid;
    hide DBImpl.Levels;
    hide Steps;
    hide Enabled;
    hide TablesAre;
    hide CleanlyPicked;
    hide InTables;
    hide WholeFiles;
    hide Compacted;
    moved := |upper| == 1 && lower == [] && fewGrandparents;
    if moved {
      d.Shape();
      MoveReady(less, tables, d.AsState(), d.level0, level, upper, lower);
      d.MoveFile(level, InTables(upper));
    } else {
      DoCompaction(d, less, tables, level, upper, lower, stopBefore, bigEnough);
    }
  }
}
