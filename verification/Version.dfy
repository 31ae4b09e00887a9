// One version of the tables: which file of a level is read, which levels a range of
// keys overlaps, and where a new table goes.
module Versions {
  import opened Basics
  import opened Compaction
  import opened DBImpls
  import opened Entries
  import opened Store
  import opened VersionSets
  import Mergers

  // ----- The file to read -----

  // The first place whose file does not end before the target.
  ghost predicate IsFile(less: KeyOrder, files: seq<Table>, target: Entry, i: nat) {
    && i <= |files|
    && (forall j :: 0 <= j < i ==> Precedes(less, files[j].largest, target))
    && (forall j :: i <= j < |files| ==> !Precedes(less, files[j].largest, target))
  }

  lemma LargestInOrder(less: KeyOrder, files: seq<Table>, i: nat, j: nat)
    requires LevelOk(less, 1, files) && i < j < |files|
    ensures Precedes(less, files[i].largest, files[j].largest)
  {
    assert TableOk(less, files[i]) && TableOk(less, files[j]);
    EndsAreEntries(less, files[i]);
    EndsAreEntries(less, files[j]);
    Follows(less, files, i, j, files[i].largest, files[j].largest);
  }

  lemma Halve(less: KeyOrder, files: seq<Table>, target: Entry, mid: nat, j: nat)
    requires LevelOk(less, 1, files) && mid < |files| && j < |files|
    ensures Precedes(less, files[mid].largest, target) && j <= mid ==> Precedes(less, files[j].largest, target)
    ensures !Precedes(less, files[mid].largest, target) && mid <= j ==> !Precedes(less, files[j].largest, target)
  {
    if j < mid { LargestInOrder(less, files, j, mid); }
    if mid < j { LargestInOrder(less, files, mid, j); }
    hide LevelOk;
    assert TotalOrder(less);
  }

  // Where the binary search from left to right ends, in order or not.
  function Bisect(less: KeyOrder, files: seq<Table>, target: Entry, left: nat, right: nat): (i: nat)
    requires left <= right <= |files|
    ensures left <= i <= right
    decreases right - left
  {
    if left == right then right
    else
      var mid := (left + right) / 2;
      if Precedes(less, files[mid].largest, target) then Bisect(less, files, target, mid + 1, right)
      else Bisect(less, files, target, left, mid)
  }

  lemma {:induction false} BisectFinds(less: KeyOrder, files: seq<Table>, target: Entry, left: nat, right: nat)
    requires LevelOk(less, 1, files) && left <= right <= |files|
    requires forall j :: 0 <= j < left ==> Precedes(less, files[j].largest, target)
    requires forall j :: right <= j < |files| ==> !Precedes(less, files[j].largest, target)
    ensures IsFile(less, files, target, Bisect(less, files, target, left, right))
    decreases right - left
  {
    hide LevelOk;
    if left < right {
      var mid := (left + right) / 2;
      forall j | 0 <= j < |files|
        ensures Precedes(less, files[mid].largest, target) && j <= mid ==> Precedes(less, files[j].largest, target)
        ensures !Precedes(less, files[mid].largest, target) && mid <= j ==> !Precedes(less, files[j].largest, target)
      {
        Halve(less, files, target, mid, j);
      }
      if Precedes(less, files[mid].largest, target) {
        BisectFinds(less, files, target, mid + 1, right);
      } else {
        BisectFinds(less, files, target, left, mid);
      }
    }
  }

  // FindFile: a binary search over the largest keys.
  method FindFile(less: KeyOrder, files: seq<Table>, target: Entry) returns (i: nat)
    ensures i == Bisect(less, files, target, 0, |files|)
    ensures LevelOk(less, 1, files) ==> IsFile(less, files, target, i)
  {
    hide LevelOk;
    var left, right := 0, |files|;
    while left < right
      invariant 0 <= left <= right <= |files|
      invariant Bisect(less, files, target, left, right) == Bisect(less, files, target, 0, |files|)
    {
      var mid := (left + right) / 2;
      if Precedes(less, files[mid].largest, target) {
        left := mid + 1;
      } else {
        right := mid;
      }
    }
    i := right;
    if LevelOk(less, 1, files) { BisectFinds(less, files, target, 0, |files|); }
  }

  // ----- Reading one file of a level -----

  function LookupKey(k: Key, n: nat): Entry {
    Entry(k, n, Put, [])
  }

  lemma NotInEarlierFile(less: KeyOrder, files: seq<Table>, k: Key, n: nat, i: nat, j: nat, e: Entry)
    requires LevelOk(less, 1, files) && IsFile(less, files, LookupKey(k, n), i)
    requires j < |files| && e in files[j].entries && e.key == k && e.seqno <= n
    ensures i <= j
  {
    assert TableOk(less, files[j]);
    KeysOrdered(less, files[j]);
    var x :| 0 <= x < |files[j].entries| && files[j].entries[x] == e;
    assert x < |files[j].entries| - 1 ==> Precedes(less, e, files[j].largest);
  }

  // The newest entry of the key is in the file found, or nowhere in the level.
  lemma OneFileDecides(less: KeyOrder, files: seq<Table>, k: Key, n: nat, i: nat, e: Entry)
    requires LevelOk(less, 1, files) && IsFile(less, files, LookupKey(k, n), i)
    ensures Finds(InTables(files), k, n, e) <==> i < |files| && Finds(Range(files[i].entries), k, n, e)
  {
    assert TotalOrder(less);
    hide LevelOk;
    if Finds(InTables(files), k, n, e) {
      var j := TableOf(files, e);
      NotInEarlierFile(less, files, k, n, i, j, e);
      assert i < |files|;
      if i < j { LastIsNewer(less, files, k, n, i, j, e); }
      assert files[i] in files;
    }
    if i < |files| && Finds(Range(files[i].entries), k, n, e) {
      assert files[i] in files && e in InTables(files);
      forall f | f in InTables(files) && f.key == k && f.seqno <= n
        ensures f.seqno <= e.seqno
      {
        var j := TableOf(files, f);
        NotInEarlierFile(less, files, k, n, i, j, f);
        if i < j {
          Follows(less, files, i, j, e, f);
          NewerFirst(less, e, f);
        } else {
          assert f in Range(files[i].entries);
        }
      }
    }
  }

  lemma NewerFirst(less: KeyOrder, e: Entry, f: Entry)
    requires TotalOrder(less) && Precedes(less, e, f) && e.key == f.key
    ensures f.seqno < e.seqno
  {
  }

  // If the key went on into a later file, the file found would end with it.
  lemma LastIsNewer(less: KeyOrder, files: seq<Table>, k: Key, n: nat, i: nat, j: nat, e: Entry)
    requires LevelOk(less, 1, files) && IsFile(less, files, LookupKey(k, n), i)
    requires i < j < |files| && e in files[j].entries && e.key == k && e.seqno <= n
    ensures !Finds(InTables(files), k, n, e)
  {
    var last := files[i].largest;
    assert TableOk(less, files[i]);
    EndsAreEntries(less, files[i]);
    Follows(less, files, i, j, last, e);
    assert files[i] in files && last in InTables(files);
  }

  lemma RunIsDistinct(less: KeyOrder, files: seq<Table>)
    requires LevelOk(less, 1, files)
    ensures Distinct(InTables(files))
  {
    forall e, f | e in InTables(files) && f in InTables(files) && e.key == f.key && e.seqno == f.seqno
      ensures e == f
    {
      var i := TableOf(files, e);
      var j := TableOf(files, f);
      if i < j { Follows(less, files, i, j, e, f); }
      if j < i { Follows(less, files, j, i, f, e); }
      assert TableOk(less, files[i]);
      var x :| 0 <= x < |files[i].entries| && files[i].entries[x] == e;
      assert i == j ==> exists y :: 0 <= y < |files[i].entries| && files[i].entries[y] == f;
    }
  }

  lemma TableIsDistinct(less: KeyOrder, t: Table)
    requires TotalOrder(less) && TableOk(less, t)
    ensures Distinct(Range(t.entries))
  {
  }

  // So one file stands for its level.
  lemma FileReadsAsLevel(less: KeyOrder, files: seq<Table>, k: Key, n: nat, i: nat)
    requires LevelOk(less, 1, files) && IsFile(less, files, LookupKey(k, n), i)
    ensures Has(InTables(files), k, n) <==> i < |files| && Has(Range(files[i].entries), k, n)
    ensures i < |files| ==> Lookup(InTables(files), k, n) == Lookup(Range(files[i].entries), k, n)
    ensures i == |files| ==> Lookup(InTables(files), k, n) == None
  {
    var file := if i < |files| then Range(files[i].entries) else {};
    forall e
      ensures Finds(InTables(files), k, n, e) <==> Finds(file, k, n, e)
    {
      OneFileDecides(less, files, k, n, i, e);
    }
    RunIsDistinct(less, files);
    if i < |files| {
      assert TableOk(less, files[i]);
      TableIsDistinct(less, files[i]);
    }
    hide LevelOk;
    SameFinds(InTables(files), file, k, n);
    HasIffFinds(InTables(files), k, n);
    HasIffFinds(file, k, n);
  }

  lemma HasIffFinds(es: set<Entry>, k: Key, n: nat)
    ensures Has(es, k, n) <==> exists e :: Finds(es, k, n, e)
  {
    if Has(es, k, n) {
      var e :| e in es && e.key == k && e.seqno <= n;
      var f := NewestExists(es, k, n, e);
      assert Finds(es, k, n, f);
    }
  }

  // A table is searched for the first entry at or after the key and number asked for.
  method TableGet(less: KeyOrder, t: Table, k: Key, n: nat) returns (found: bool, value: Option<Value>)
    requires TotalOrder(less) && TableOk(less, t)
    ensures found <==> Has(Range(t.entries), k, n)
    ensures value == Lookup(Range(t.entries), k, n)
  {
    var p := Mergers.LowerBound(less, t.entries, LookupKey(k, n));
    found := p < |t.entries| && t.entries[p].key == k;
    TableIsDistinct(less, t);
    FirstIsNewest(less, t.entries, k, n, p);
    if found {
      LookupFound(Range(t.entries), k, n, t.entries[p]);
      value := if t.entries[p].kind.Put? then Some(t.entries[p].value) else None;
    } else {
      value := None;
    }
  }

  lemma FirstIsNewest(less: KeyOrder, es: seq<Entry>, k: Key, n: nat, p: nat)
    requires TotalOrder(less) && Sorted(less, es) && p == Mergers.LowerBound(less, es, LookupKey(k, n))
    ensures if p < |es| && es[p].key == k then Finds(Range(es), k, n, es[p]) else !Has(Range(es), k, n)
  {
    forall e | e in es && e.key == k && e.seqno <= n
      ensures p < |es| && es[p].key == k && e.seqno <= es[p].seqno
    {
      var x :| 0 <= x < |es| && es[x] == e;
      assert !Precedes(less, e, LookupKey(k, n));
      assert p <= x;
      assert p < x ==> Precedes(less, es[p], es[x]);
    }
  }

  // ----- Reading all levels -----

  predicate CoversKey(less: KeyOrder, t: Table, k: Key) {
    !less(k, t.smallest.key) && !less(t.largest.key, k)
  }

  // The files of level 0 one by one, from the newest on, and then the levels.
  ghost function Layered(tables: seq<seq<Table>>): seq<set<Entry>>
    requires tables != []
  {
    FileLayers(tables[0]) + Contents(tables)[1..]
  }

  ghost function FileLayers(files: seq<Table>): (layers: seq<set<Entry>>)
    ensures |layers| == |files|
  {
    seq(|files|, i requires 0 <= i < |files| => Range(files[i].entries))
  }

  // Every file of level 0 whose range has the key, from the newest on.
  method GetFromFiles(less: KeyOrder, files: seq<Table>, k: Key, n: nat, ghost rest: seq<set<Entry>>)
    returns (found: bool, value: Option<Value>)
    requires LevelOk(less, 0, files)
    ensures found ==> Store.Get(FileLayers(files) + rest, k, n) == value
    ensures !found ==> value == None && Store.Get(FileLayers(files) + rest, k, n) == Store.Get(rest, k, n)
  {
    hide LevelOk;
    hide Store.Get;
    hide Lookup;
    hide Has;
    ghost var all := FileLayers(files) + rest;
    assert all[0..] == all;
    for i := 0 to |files|
      invariant Store.Get(all, k, n) == Store.Get(all[i..], k, n)
    {
      OutOfRange(less, files, i, k, n);
      GetSkips(all, i, k, n);
      if CoversKey(less, files[i], k) {
        found, value := TableGet(less, files[i], k, n);
        if found { return; }
      }
    }
    assert all[|files|..] == rest;
    return false, None;
  }

  // One file of a level further down.
  method GetFromLevel(less: KeyOrder, files: seq<Table>, k: Key, n: nat) returns (found: bool, value: Option<Value>)
    requires LevelOk(less, 1, files)
    ensures found <==> Has(InTables(files), k, n)
    ensures value == Lookup(InTables(files), k, n)
  {
    hide Lookup;
    hide Has;
    hide Bisect;
    hide InTables;
    var i := FindFile(less, files, LookupKey(k, n));
    FileReadsAsLevel(less, files, k, n, i);
    if i < |files| {
      assert LevelOk(less, 0, files);
      OutOfRange(less, files, i, k, n);
      if !less(k, files[i].smallest.key) {
        found, value := TableGet(less, files[i], k, n);
        return;
      }
      NothingFound(Range(files[i].entries), k, n);
    }
    return false, None;
  }

  lemma NothingFound(es: set<Entry>, k: Key, n: nat)
    requires !Has(es, k, n)
    ensures Lookup(es, k, n) == None
  {
  }

  // Version::Get: the files of level 0 and one file of each other level, until one
  // has an entry to go by.
  method Get(less: KeyOrder, tables: seq<seq<Table>>, k: Key, n: nat) returns (found: bool, value: Option<Value>)
    requires tables != [] && forall j :: 0 <= j < |tables| ==> LevelOk(less, j, tables[j])
    ensures value == Store.Get(Layered(tables), k, n)
  {
    ghost var levels := Contents(tables)[1..];
    assert LevelOk(less, 0, tables[0]);
    found, value := GetFromFiles(less, tables[0], k, n, levels);
    if found { return; }
    hide Store.Get;
    hide Lookup;
    hide Has;
    hide InTables;
    for level := 1 to |tables|
      invariant Store.Get(levels, k, n) == Store.Get(levels[level - 1..], k, n)
    {
      assert LevelOk(less, level, tables[level]) && LevelOk(less, 1, tables[level]);
      GetSkips(levels, level - 1, k, n);
      found, value := GetFromLevel(less, tables[level], k, n);
      if found { return; }
    }
    assert levels[|levels|..] == [];
    NothingLeft(k, n);
    return false, None;
  }

  lemma OutOfRange(less: KeyOrder, files: seq<Table>, i: nat, k: Key, n: nat)
    requires LevelOk(less, 0, files) && i < |files|
    ensures TotalOrder(less) && TableOk(less, files[i])
    ensures !CoversKey(less, files[i], k) ==> !Has(Range(files[i].entries), k, n)
  {
    assert files[i] in files;
    KeysOrdered(less, files[i]);
  }

  lemma DeeperLevel(less: KeyOrder, tables: seq<seq<Table>>, level: nat)
    requires 0 < level < |tables| && forall j :: 0 <= j < |tables| ==> LevelOk(less, j, tables[j])
    ensures LevelOk(less, 1, tables[level])
  {
    assert LevelOk(less, level, tables[level]);
  }

  lemma LayeredIs(less: KeyOrder, tables: seq<seq<Table>>, levels: seq<set<Entry>>, level0: seq<set<Entry>>)
    requires TablesAre(less, tables, levels, level0)
    ensures Layered(tables) == level0 + levels[1..]
  {
    forall i | 0 <= i < |level0|
      ensures Range(tables[0][i].entries) == level0[i]
    {
      assert InTables([tables[0][i]]) == Range(tables[0][i].entries);
    }
    assert FileLayers(tables[0]) == level0;
  }

  lemma ReadThrough(d: DBImpl, less: KeyOrder, tables: seq<seq<Table>>, k: Key, n: nat)
    requires d.Valid() && Readable(d.AsState(), n) && TablesAre(less, tables, d.Levels(), d.level0)
    ensures Distinct(d.mem) && Distinct(Immutable(d.AsState()))
    ensures Store.Get([d.mem] + ([Immutable(d.AsState())] + Layered(tables)), k, n) == Lookup(Range(d.history), k, n)
    ensures forall j :: 0 <= j < |tables| ==> LevelOk(less, j, tables[j])
    ensures tables != []
  {
    hide DBImpl.Valid;
    hide Store.Get;
    hide Lookup;
    hide Range;
    hide LevelOk;
    hide InTables;
    hide Union;
    hide Layered;
    d.FilesReadAsLayers(k, n);
    d.FilesAreDistinct();
    LayeredIs(less, tables, d.Levels(), d.level0);
    assert d.Levels()[1..] == d.deeper;
    hide *;
    var imm, files := Immutable(d.AsState()), Layered(tables);
    assert [d.mem, imm] + d.level0 + d.deeper == [d.mem] + ([imm] + files);
  }

  // DBImpl::Get, with the files of the version in the place of its levels.
  method GetFromVersion(d: DBImpl, less: KeyOrder, tables: seq<seq<Table>>, k: Key, snapshot: Option<nat>)
    returns (value: Option<Value>)
    requires d.Valid() && (snapshot.Some? ==> snapshot.value in d.snapshots)
    requires TablesAre(less, tables, d.Levels(), d.level0)
    ensures value == Lookup(Range(d.history), k, if snapshot.Some? then snapshot.value else d.lastSequence)
  {
    var n := if snapshot.Some? then snapshot.value else d.lastSequence;
    assert Readable(d.AsState(), n);
    ReadThrough(d, less, tables, k, n);
    ghost var rest := Layered(tables);
    var imm := if d.imm.Some? then d.imm.value else {};
    assert imm == Immutable(d.AsState());
    assert forall i :: 0 <= i < 1 ==> Distinct([d.mem][i]) && Distinct([imm][i]);
    hide *;
    var found, v := SearchFiles([d.mem], k, n, [imm] + rest);
    if found { return v; }
    found, v := SearchFiles([imm], k, n, rest);
    if found { return v; }
    found, v := Get(less, tables, k, n);
    return v;
  }

  // ----- What a range of keys overlaps -----

  predicate AfterFile(less: KeyOrder, key: Option<Key>, f: Table) {
    key.Some? && less(f.largest.key, key.value)
  }

  predicate BeforeFile(less: KeyOrder, key: Option<Key>, f: Table) {
    key.Some? && less(key.value, f.smallest.key)
  }

  // SomeFileOverlapsRange: all files are tried, or where they are disjoint only the
  // first that does not end before the range.
  method SomeFileOverlapsRange(less: KeyOrder, disjoint: bool, files: seq<Table>,
                               smallest: Option<Key>, largest: Option<Key>) returns (overlaps: bool)
    requires LevelOk(less, if disjoint then 1 else 0, files)
    requires forall t :: t in files ==> t.largest.seqno <= MAX_SEQUENCE
    ensures overlaps <==> exists t :: t in files && Overlaps(less, t, Bounds(smallest, largest))
  {
    hide LevelOk;
    if !disjoint {
      for i := 0 to |files|
        invariant forall j :: 0 <= j < i ==> !Overlaps(less, files[j], Bounds(smallest, largest))
      {
        if !AfterFile(less, smallest, files[i]) && !BeforeFile(less, largest, files[i]) {
          assert files[i] in files && Overlaps(less, files[i], Bounds(smallest, largest));
          return true;
        }
      }
      return false;
    }
    var index := 0;
    if smallest.Some? {
      index := FindFile(less, files, LookupKey(smallest.value, MAX_SEQUENCE));
    }
    FirstMayOverlap(less, files, smallest, largest, index);
    return index < |files| && !BeforeFile(less, largest, files[index]);
  }

  lemma FirstMayOverlap(less: KeyOrder, files: seq<Table>, smallest: Option<Key>, largest: Option<Key>, i: nat)
    requires LevelOk(less, 1, files) && forall t :: t in files ==> t.largest.seqno <= MAX_SEQUENCE
    requires if smallest.None? then i == 0 else IsFile(less, files, LookupKey(smallest.value, MAX_SEQUENCE), i)
    ensures i < |files| && !BeforeFile(less, largest, files[i])
       <==> exists t :: t in files && Overlaps(less, t, Bounds(smallest, largest))
  {
    var r := Bounds(smallest, largest);
    if t :| t in files && Overlaps(less, t, r) {
      var j :| 0 <= j < |files| && files[j] == t;
      assert i <= j;
      if i < j { SmallestInOrder(less, files, i, j); }
    }
    if i < |files| && !BeforeFile(less, largest, files[i]) {
      assert files[i] in files && !Before(less, files[i], r);
    }
  }

  lemma SmallestInOrder(less: KeyOrder, files: seq<Table>, i: nat, j: nat)
    requires LevelOk(less, 1, files) && i < j < |files|
    ensures !less(files[j].smallest.key, files[i].smallest.key)
  {
    assert TableOk(less, files[i]) && TableOk(less, files[j]);
    EndsAreEntries(less, files[i]);
    EndsAreEntries(less, files[j]);
    Follows(less, files, i, j, files[i].smallest, files[j].smallest);
  }

  // ----- Where the table of a memtable goes -----

  ghost predicate SomeOverlap(less: KeyOrder, files: seq<Table>, r: Bounds) {
    exists t :: t in files && Overlaps(less, t, r)
  }

  function OverlappingBytes(less: KeyOrder, files: seq<Table>, r: Bounds): nat {
    TotalFileSize(Overlapping(less, files, r))
  }

  function KeyRange(smallest: Key, largest: Key): Bounds {
    Bounds(Some(smallest), Some(largest))
  }

  // As far down as nothing of these levels overlaps it, and not over too much data.
  method PickLevelForMemTableOutput(less: KeyOrder, tables: seq<seq<Table>>, smallest: Key, largest: Key, limit: nat)
    returns (level: nat)
    requires |tables| == NUM_LEVELS && forall j :: 0 <= j < NUM_LEVELS ==> LevelOk(less, j, tables[j])
    requires forall j, t :: 0 <= j < NUM_LEVELS && t in tables[j] ==> t.largest.seqno <= MAX_SEQUENCE
    ensures level <= MAX_MEM_COMPACT_LEVEL
    ensures level == 0 || forall j :: 0 <= j <= level ==> !SomeOverlap(less, tables[j], KeyRange(smallest, largest))
    ensures forall j :: 2 <= j < level + 2 ==> OverlappingBytes(less, tables[j], KeyRange(smallest, largest)) <= limit
    ensures level < MAX_MEM_COMPACT_LEVEL ==>
      || SomeOverlap(less, tables[0], KeyRange(smallest, largest))
      || SomeOverlap(less, tables[level + 1], KeyRange(smallest, largest))
      || OverlappingBytes(less, tables[level + 2], KeyRange(smallest, largest)) > limit
  {
    hide LevelOk;
    hide Overlaps;
    hide Overlapping;
    hide TotalFileSize;
    var r := KeyRange(smallest, largest);
    level := 0;
    var overlap := SomeFileOverlapsRange(less, false, tables[0], Some(smallest), Some(largest));
    if !overlap {
      while level < MAX_MEM_COMPACT_LEVEL
        invariant level <= MAX_MEM_COMPACT_LEVEL
        invariant forall j :: 0 <= j <= level ==> !SomeOverlap(less, tables[j], r)
        invariant forall j :: 2 <= j < level + 2 ==> OverlappingBytes(less, tables[j], r) <= limit
      {
        DeeperLevel(less, tables, level + 1);
        overlap := SomeFileOverlapsRange(less, true, tables[level + 1], Some(smallest), Some(largest));
        if overlap { break; }
        DeeperLevel(less, tables, level + 2);
        var overlaps := GetOverlappingInputs(less, level + 2, tables[level + 2], Some(smallest), Some(largest));
        if TotalFileSize(overlaps) > limit { break; }
        level := level + 1;
      }
    }
  }
}
