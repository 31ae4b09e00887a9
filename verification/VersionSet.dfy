// How the version set picks the tables of a compaction, and exactly when the
// picked inputs are cut cleanly.
module VersionSets {
  import opened Basics
  import opened Compaction
  import opened Entries
  import opened Store

  datatype Table = Table(smallest: Entry, largest: Entry, size: nat, entries: seq<Entry>)

  ghost predicate TableOk(less: KeyOrder, t: Table) {
    && t.entries != [] && Sorted(less, t.entries)
    && t.smallest == t.entries[0] && t.largest == t.entries[|t.entries| - 1]
  }

  // From level 1 on, each table ends before the next begins, in internal key
  // order; their user keys may meet.
  ghost predicate Run(less: KeyOrder, files: seq<Table>) {
    forall i, j :: 0 <= i < j < |files| ==> Precedes(less, files[i].largest, files[j].smallest)
  }

  ghost predicate LevelOk(less: KeyOrder, level: nat, files: seq<Table>) {
    && TotalOrder(less)
    && (forall t :: t in files ==> TableOk(less, t))
    && (level > 0 ==> Run(less, files))
  }

  function InTables(files: seq<Table>): set<Entry> {
    set t, e | t in files && e in t.entries :: e
  }

  // ----- Tables that overlap a range of user keys -----

  datatype Bounds = Bounds(begin: Option<Key>, end: Option<Key>)

  predicate Before(less: KeyOrder, t: Table, r: Bounds) {
    r.begin.Some? && less(t.largest.key, r.begin.value)
  }

  predicate Behind(less: KeyOrder, t: Table, r: Bounds) {
    r.end.Some? && less(r.end.value, t.smallest.key)
  }

  predicate Overlaps(less: KeyOrder, t: Table, r: Bounds) {
    !Before(less, t, r) && !Behind(less, t, r)
  }

  function Overlapping(less: KeyOrder, files: seq<Table>, r: Bounds): seq<Table> {
    if files == [] then []
    else
      var last := files[|files| - 1];
      Overlapping(less, files[..|files| - 1], r) + if Overlaps(less, last, r) then [last] else []
  }

  lemma {:induction false} InOverlapping(less: KeyOrder, files: seq<Table>, r: Bounds)
    ensures forall t :: t in Overlapping(less, files, r) <==> t in files && Overlaps(less, t, r)
  {
    if files != [] {
      InOverlapping(less, files[..|files| - 1], r);
      assert files == files[..|files| - 1] + [files[|files| - 1]];
    }
  }

  predicate EarlyStart(less: KeyOrder, t: Table, r: Bounds) {
    r.begin.Some? && less(t.smallest.key, r.begin.value)
  }

  predicate LateEnd(less: KeyOrder, t: Table, r: Bounds) {
    r.end.Some? && less(r.end.value, t.largest.key)
  }

  // No table that overlaps the range reaches out of it.
  ghost predicate Closed(less: KeyOrder, files: seq<Table>, r: Bounds) {
    forall t :: t in files && Overlaps(less, t, r) ==> !EarlyStart(less, t, r) && !LateEnd(less, t, r)
  }

  // The range a is part of b.
  predicate Within(less: KeyOrder, a: Bounds, b: Bounds) {
    && a.begin.Some? == b.begin.Some? && (a.begin.Some? ==> !less(a.begin.value, b.begin.value))
    && a.end.Some? == b.end.Some? && (a.end.Some? ==> !less(b.end.value, a.end.value))
  }

  // The least closed range around a range.
  ghost predicate ClosureOf(less: KeyOrder, files: seq<Table>, r: Bounds, c: Bounds) {
    && Within(less, r, c) && Closed(less, files, c)
    && forall d :: Within(less, r, d) && Closed(less, files, d) ==> Within(less, c, d)
  }

  ghost function Early(less: KeyOrder, files: seq<Table>, r: Bounds): set<Table> {
    set t | t in files && EarlyStart(less, t, r)
  }

  ghost function Late(less: KeyOrder, files: seq<Table>, r: Bounds): set<Table> {
    set t | t in files && LateEnd(less, t, r)
  }

  // The range c is no wider than it has to be, and closed as far as has been looked.
  ghost predicate Fits(less: KeyOrder, files: seq<Table>, i: nat, r: Bounds, c: Bounds)
    requires i <= |files|
  {
    && Within(less, r, c) && Closed(less, files[..i], c)
    && forall d :: Within(less, r, d) && Closed(less, files, d) ==> Within(less, c, d)
  }

  lemma SameOverlap(less: KeyOrder, t: Table, c: Bounds, d: Bounds)
    requires TotalOrder(less) && Within(less, c, d) && Overlaps(less, t, c)
    ensures Overlaps(less, t, d)
  {
  }

  lemma GrowsEarly(less: KeyOrder, files: seq<Table>, i: nat, r: Bounds, c: Bounds, inputs: seq<Table>)
    requires TotalOrder(less) && i < |files| && Looked(less, 0, files, i, r, c, inputs) && Overlaps(less, files[i], c)
    requires EarlyStart(less, files[i], c)
    ensures var grown := c.(begin := Some(files[i].smallest.key));
      && Early(less, files, grown) < Early(less, files, c) && Late(less, files, grown) == Late(less, files, c)
      && Looked(less, 0, files, 0, r, grown, [])
  {
    var f, grown := files[i], c.(begin := Some(files[i].smallest.key));
    assert f in Early(less, files, c) && f !in Early(less, files, grown);
    forall d | Within(less, r, d) && Closed(less, files, d)
      ensures Within(less, grown, d)
    {
      SameOverlap(less, f, c, d);
    }
  }

  lemma GrowsLate(less: KeyOrder, files: seq<Table>, i: nat, r: Bounds, c: Bounds, inputs: seq<Table>)
    requires TotalOrder(less) && i < |files| && Looked(less, 0, files, i, r, c, inputs) && Overlaps(less, files[i], c)
    requires LateEnd(less, files[i], c)
    ensures var grown := c.(end := Some(files[i].largest.key));
      && Late(less, files, grown) < Late(less, files, c) && Early(less, files, grown) == Early(less, files, c)
      && Looked(less, 0, files, 0, r, grown, [])
  {
    var f, grown := files[i], c.(end := Some(files[i].largest.key));
    assert f in Late(less, files, c) && f !in Late(less, files, grown);
    forall d | Within(less, r, d) && Closed(less, files, d)
      ensures Within(less, grown, d)
    {
      SameOverlap(less, f, c, d);
    }
  }

  // What the search has found after i tables.
  ghost predicate Looked(less: KeyOrder, level: nat, files: seq<Table>, i: nat, r: Bounds, c: Bounds,
                         inputs: seq<Table>) {
    && i <= |files| && inputs == Overlapping(less, files[..i], c)
    && if level == 0 then Fits(less, files, i, r, c) else c == r
  }

  lemma NothingLooked(less: KeyOrder, level: nat, files: seq<Table>, r: Bounds, c: Bounds)
    requires if level == 0 then TotalOrder(less) && (r == c || Fits(less, files, 0, r, c)) else c == r
    ensures Looked(less, level, files, 0, r, c, [])
  {
  }

  lemma OneMoreLooked(less: KeyOrder, level: nat, files: seq<Table>, i: nat, r: Bounds, c: Bounds, inputs: seq<Table>)
    requires Looked(less, level, files, i, r, c, inputs) && i < |files|
    requires level == 0 && Overlaps(less, files[i], c) ==> !EarlyStart(less, files[i], c) && !LateEnd(less, files[i], c)
    ensures Looked(less, level, files, i + 1, r, c, if Overlaps(less, files[i], c) then inputs + [files[i]] else inputs)
  {
    assert files[..i + 1] == files[..i] + [files[i]] && files[..i + 1][..i] == files[..i];
  }

  lemma AllLooked(less: KeyOrder, level: nat, files: seq<Table>, r: Bounds, c: Bounds, inputs: seq<Table>)
    requires Looked(less, level, files, |files|, r, c, inputs)
    ensures Found(less, level, files, r, inputs, c)
    ensures level > 0 ==> inputs == Overlapping(less, files, r)
  {
    assert files[..|files|] == files;
  }

  // The tests of the search, spelled out.
  lemma IsOverlap(less: KeyOrder, t: Table, r: Bounds)
    ensures Overlaps(less, t, r)
      <==>
        && !(r.begin.Some? && less(t.largest.key, r.begin.value))
        && !(r.end.Some? && less(r.end.value, t.smallest.key))
    ensures EarlyStart(less, t, r) <==> r.begin.Some? && less(t.smallest.key, r.begin.value)
    ensures LateEnd(less, t, r) <==> r.end.Some? && less(r.end.value, t.largest.key)
  {
  }

  // What a search of one level yields.
  ghost predicate Found(less: KeyOrder, level: nat, files: seq<Table>, r: Bounds, inputs: seq<Table>, c: Bounds) {
    && inputs == Overlapping(less, files, c)
    && if level == 0 then ClosureOf(less, files, r, c) else c == r
  }

  // All tables of the level that overlap the range; in level 0, where tables may
  // overlap each other, the range grows with them and the search starts again.
  method GetOverlappingInputs(less: KeyOrder, level: nat, files: seq<Table>, begin: Option<Key>, end: Option<Key>)
    returns (inputs: seq<Table>)
    requires LevelOk(less, level, files)
    ensures level > 0 ==> inputs == Overlapping(less, files, Bounds(begin, end))
    ensures exists c :: Found(less, level, files, Bounds(begin, end), inputs, c)
  {
    assert TotalOrder(less);
    hide *;
    ghost var asked := Bounds(begin, end);
    var userBegin, userEnd := begin, end;
    var i := 0;
    inputs := [];
    NothingLooked(less, level, files, asked, asked);
    while i < |files|
      invariant 0 <= i <= |files| && Looked(less, level, files, i, asked, Bounds(userBegin, userEnd), inputs)
      decreases Early(less, files, Bounds(userBegin, userEnd)), Late(less, files, Bounds(userBegin, userEnd)),
                |files| - i
    {
      var f := files[i];
      ghost var c := Bounds(userBegin, userEnd);
      IsOverlap(less, f, c);
      var fileStart, fileLimit := f.smallest.key, f.largest.key;
      if userBegin.Some? && less(fileLimit, userBegin.value) {
        // Completely before the range.
        OneMoreLooked(less, level, files, i, asked, c, inputs);
        i := i + 1;
      } else if userEnd.Some? && less(userEnd.value, fileStart) {
        // Completely behind it.
        OneMoreLooked(less, level, files, i, asked, c, inputs);
        i := i + 1;
      } else if level == 0 && userBegin.Some? && less(fileStart, userBegin.value) {
        GrowsEarly(less, files, i, asked, c, inputs);
        userBegin := Some(fileStart);
        inputs := [];
        i := 0;
      } else if level == 0 && userEnd.Some? && less(userEnd.value, fileLimit) {
        GrowsLate(less, files, i, asked, c, inputs);
        userEnd := Some(fileLimit);
        inputs := [];
        i := 0;
      } else {
        OneMoreLooked(less, level, files, i, asked, c, inputs);
        inputs := inputs + [f];
        i := i + 1;
      }
    }
    AllLooked(less, level, files, asked, Bounds(userBegin, userEnd), inputs);
  }

  // ----- The range of some tables -----

  function Smallest(less: KeyOrder, ts: seq<Table>): Entry
    requires ts != []
  {
    var last := ts[|ts| - 1].smallest;
    if |ts| == 1 then last
    else
      var s := Smallest(less, ts[..|ts| - 1]);
      if Precedes(less, last, s) then last else s
  }

  function Largest(less: KeyOrder, ts: seq<Table>): Entry
    requires ts != []
  {
    var last := ts[|ts| - 1].largest;
    if |ts| == 1 then last
    else
      var l := Largest(less, ts[..|ts| - 1]);
      if Precedes(less, l, last) then last else l
  }

  function RangeOf(less: KeyOrder, ts: seq<Table>): Bounds
    requires ts != []
  {
    Bounds(Some(Smallest(less, ts).key), Some(Largest(less, ts).key))
  }

  method GetRange(less: KeyOrder, inputs: seq<Table>) returns (smallest: Entry, largest: Entry)
    requires inputs != []
    ensures smallest == Smallest(less, inputs) && largest == Largest(less, inputs)
  {
    smallest, largest := inputs[0].smallest, inputs[0].largest;
    for i := 1 to |inputs|
      invariant smallest == Smallest(less, inputs[..i]) && largest == Largest(less, inputs[..i])
    {
      var f := inputs[i];
      assert inputs[..i + 1][..i] == inputs[..i];
      if Precedes(less, f.smallest, smallest) { smallest := f.smallest; }
      if Precedes(less, largest, f.largest) { largest := f.largest; }
    }
    assert inputs[..|inputs|] == inputs;
  }

  lemma {:induction false} InRange(less: KeyOrder, ts: seq<Table>, t: Table)
    requires TotalOrder(less) && t in ts
    ensures !less(t.smallest.key, Smallest(less, ts).key) && !less(Largest(less, ts).key, t.largest.key)
  {
    var n := |ts| - 1;
    if t != ts[n] {
      assert t in ts[..n];
      InRange(less, ts[..n], t);
    }
  }

  function TotalFileSize(files: seq<Table>): nat {
    if files == [] then 0 else TotalFileSize(files[..|files| - 1]) + files[|files| - 1].size
  }

  lemma {:induction false} TotalOfBoth(a: seq<Table>, b: seq<Table>)
    ensures TotalFileSize(a + b) == TotalFileSize(a) + TotalFileSize(b)
    ensures forall t :: TotalFileSize([t]) == t.size
  {
    if b == [] {
      assert a + b == a;
    } else {
      assert (a + b)[..|a + b| - 1] == a + b[..|b| - 1];
      TotalOfBoth(a, b[..|b| - 1]);
    }
  }

  // ----- The inputs of a compaction -----

  // The upper inputs are whole: a stretch of the level, or in level 0 all tables
  // that overlap a closed range.
  ghost predicate Whole(less: KeyOrder, level: nat, files: seq<Table>, inputs: seq<Table>) {
    && inputs != []
    && if level == 0 then exists r :: Closed(less, files, r) && inputs == Overlapping(less, files, r)
       else exists a: nat, b: nat :: Stretch(files, a, b, inputs)
  }

  ghost predicate Stretch(files: seq<Table>, a: nat, b: nat, inputs: seq<Table>) {
    a <= b <= |files| && inputs == files[a..b]
  }

  // The tables from a up to b, of the first n, are those that overlap the range.
  ghost predicate Exactly(less: KeyOrder, files: seq<Table>, r: Bounds, n: nat, a: nat, b: nat)
    requires n <= |files|
  {
    a <= b <= n && forall i :: 0 <= i < n ==> (a <= i < b <==> Overlaps(less, files[i], r))
  }

  lemma OneMore(less: KeyOrder, files: seq<Table>, r: Bounds, a: nat, b: nat)
    requires LevelOk(less, 1, files) && files != []
    requires Exactly(less, files[..|files| - 1], r, |files| - 1, a, b)
    ensures Overlaps(less, files[|files| - 1], r) ==>
      (a == b || b == |files| - 1) && Exactly(less, files, r, |files|, if a == b then |files| - 1 else a, |files|)
    ensures !Overlaps(less, files[|files| - 1], r) ==> Exactly(less, files, r, |files|, a, b)
  {
    var n := |files| - 1;
    assert forall i :: 0 <= i < n ==> files[..n][i] == files[i];
    if Overlaps(less, files[n], r) && a < b && b < n {
      Between(less, files, b - 1, b, n, r);
    }
    hide Overlaps;
  }

  // In a run the tables that overlap a range lie side by side.
  lemma {:induction false} OverlappingIsStretch(less: KeyOrder, files: seq<Table>, r: Bounds) returns (a: nat, b: nat)
    requires LevelOk(less, 1, files)
    ensures Stretch(files, a, b, Overlapping(less, files, r)) && Exactly(less, files, r, |files|, a, b)
  {
    if files == [] {
      a, b := 0, 0;
    } else {
      var n := |files| - 1;
      var before := files[..n];
      FewerOk(less, files);
      a, b := OverlappingIsStretch(less, before, r);
      assert Overlapping(less, files, r)
          == Overlapping(less, before, r) + if Overlaps(less, files[n], r) then [files[n]] else [];
      hide *;
      OneMore(less, files, r, a, b);
      Longer(files, a, b, Overlapping(less, before, r));
      if Overlaps(less, files[n], r) {
        a, b := if a == b then n else a, n + 1;
      }
    }
  }

  lemma FewerOk(less: KeyOrder, files: seq<Table>)
    requires LevelOk(less, 1, files) && files != []
    ensures LevelOk(less, 1, files[..|files| - 1])
  {
  }

  lemma Longer(files: seq<Table>, a: nat, b: nat, inputs: seq<Table>)
    requires files != [] && Stretch(files[..|files| - 1], a, b, inputs)
    ensures Stretch(files, a, b, inputs + []) && a <= b < |files|
    ensures b == |files| - 1 ==> Stretch(files, a, b + 1, inputs + [files[b]])
    ensures a == b ==> Stretch(files, |files| - 1, |files|, inputs + [files[|files| - 1]])
  {
    assert files[..|files| - 1][a..b] == files[a..b];
  }

  lemma Between(less: KeyOrder, files: seq<Table>, i: nat, j: nat, k: nat, r: Bounds)
    requires LevelOk(less, 1, files) && i < j < k < |files|
    requires Overlaps(less, files[i], r) && Overlaps(less, files[k], r)
    ensures Overlaps(less, files[j], r)
  {
    KeysOrdered(less, files[i]);
    KeysOrdered(less, files[j]);
    KeysOrdered(less, files[k]);
  }

  lemma KeysOrdered(less: KeyOrder, t: Table)
    requires TotalOrder(less) && TableOk(less, t)
    ensures !less(t.largest.key, t.smallest.key)
    ensures forall e :: e in t.entries ==> !less(e.key, t.smallest.key) && !less(t.largest.key, e.key)
  {
    forall e | e in t.entries
      ensures !less(e.key, t.smallest.key) && !less(t.largest.key, e.key)
    {
      var i :| 0 <= i < |t.entries| && t.entries[i] == e;
      assert i > 0 ==> Precedes(less, t.entries[0], t.entries[i]);
      assert i < |t.entries| - 1 ==> Precedes(less, t.entries[i], t.entries[|t.entries| - 1]);
    }
    assert t.smallest in t.entries;
  }

  lemma FoundIsWhole(less: KeyOrder, level: nat, files: seq<Table>, r: Bounds, inputs: seq<Table>, c: Bounds)
    requires LevelOk(less, level, files) && Found(less, level, files, r, inputs, c) && inputs != []
    ensures Whole(less, level, files, inputs)
  {
    if level > 0 {
      var a, b := OverlappingIsStretch(less, files, c);
    }
  }

  // The first table that ends behind the compaction pointer, or the first of all.
  ghost predicate NextToCompact(less: KeyOrder, files: seq<Table>, pointer: Option<Entry>, i: nat) {
    && i < |files|
    && (forall j :: 0 <= j < i ==> EndsBefore(less, files[j], pointer))
    && (EndsBefore(less, files[i], pointer) ==>
          i == 0 && forall j :: 0 <= j < |files| ==> EndsBefore(less, files[j], pointer))
  }

  predicate EndsBefore(less: KeyOrder, t: Table, pointer: Option<Entry>) {
    pointer.Some? && !Precedes(less, pointer.value, t.largest)
  }

  // One table, and in level 0 all that overlap it, directly or through others.
  ghost predicate FirstTaken(less: KeyOrder, level: nat, files: seq<Table>, i: nat, inputs: seq<Table>) {
    && i < |files|
    && if level == 0 then exists c :: Found(less, 0, files, RangeOf(less, [files[i]]), inputs, c)
       else inputs == [files[i]]
  }

  // PickCompaction, when a level holds too much.
  method PickCompaction(less: KeyOrder, level: nat, files: seq<Table>, pointer: Option<Entry>)
    returns (inputs: seq<Table>, ghost i: nat)
    requires LevelOk(less, level, files) && files != []
    ensures NextToCompact(less, files, pointer, i) && files[i] in inputs && Whole(less, level, files, inputs)
    ensures FirstTaken(less, level, files, i, inputs)
  {
    hide LevelOk;
    hide Found;
    inputs := [];
    i := 0;
    for n := 0 to |files|
      invariant inputs == [] && forall j :: 0 <= j < n ==> EndsBefore(less, files[j], pointer)
    {
      if pointer.None? || Precedes(less, pointer.value, files[n].largest) {
        inputs := [files[n]];
        i := n;
        break;
      }
    }
    if inputs == [] {
      inputs := [files[0]];
    }
    if level == 0 {
      var smallest, largest := GetRange(less, inputs);
      inputs := GetOverlappingInputs(less, 0, files, Some(smallest.key), Some(largest.key));
      ghost var c :| Found(less, 0, files, Bounds(Some(smallest.key), Some(largest.key)), inputs, c);
      assert Bounds(Some(smallest.key), Some(largest.key)) == RangeOf(less, [files[i]]);
      OwnRange(less, files, i, inputs, c);
      FoundIsWhole(less, 0, files, RangeOf(less, [files[i]]), inputs, c);
    } else {
      assert Stretch(files, i, i + 1, inputs);
    }
  }

  lemma OwnRange(less: KeyOrder, files: seq<Table>, i: nat, inputs: seq<Table>, c: Bounds)
    requires i < |files| && LevelOk(less, 0, files) && Found(less, 0, files, RangeOf(less, [files[i]]), inputs, c)
    ensures files[i] in inputs
  {
    var t := files[i];
    KeysOrdered(less, t);
    assert Overlaps(less, t, RangeOf(less, [t]));
    SameOverlap(less, t, RangeOf(less, [t]), c);
    InOverlapping(less, files, c);
  }

  // Growing the inputs loses none of them.
  lemma InputsAreFound(less: KeyOrder, level: nat, files: seq<Table>, inputs: seq<Table>, lower: seq<Table>,
                       found: seq<Table>, c: Bounds)
    requires LevelOk(less, level, files) && inputs != [] && Whole(less, level, files, inputs)
    requires Found(less, level, files, RangeOf(less, inputs + lower), found, c)
    ensures forall t :: t in inputs ==> t in found
  {
    InputsAreTables(less, level, files, inputs);
    hide Whole;
    hide LevelOk;
    forall t | t in inputs
      ensures t in found
    {
      InRange(less, inputs + lower, t);
      KeysOrdered(less, t);
      SameOverlap(less, t, RangeOf(less, inputs + lower), c);
      InOverlapping(less, files, c);
    }
  }

  lemma InputsAreTables(less: KeyOrder, level: nat, files: seq<Table>, inputs: seq<Table>)
    requires LevelOk(less, level, files) && inputs != [] && Whole(less, level, files, inputs)
    ensures TotalOrder(less) && forall t :: t in inputs ==> t in files && TableOk(less, t)
  {
    if level == 0 {
      var r :| Closed(less, files, r) && inputs == Overlapping(less, files, r);
      InOverlapping(less, files, r);
    }
  }

  // A search finds only one thing.
  lemma OnlyFound(less: KeyOrder, level: nat, files: seq<Table>, r: Bounds, found: seq<Table>, c: Bounds)
    requires LevelOk(less, level, files) && Found(less, level, files, r, found, c)
    ensures forall e, d :: Found(less, level, files, r, e, d) ==> e == found
  {
    hide Overlapping;
    forall e, d | Found(less, level, files, r, e, d)
      ensures e == found
    {
      if level == 0 { SameBounds(less, c, d); }
    }
  }

  lemma SameBounds(less: KeyOrder, c: Bounds, d: Bounds)
    requires TotalOrder(less) && Within(less, c, d) && Within(less, d, c)
    ensures c == d
  {
  }

  // The upper inputs are those first taken, or all that overlap these or the lower ones.
  ghost predicate Expanded(less: KeyOrder, level: nat, files: seq<Table>, next: seq<Table>, inputs: seq<Table>,
                           upper: seq<Table>)
    requires inputs != []
  {
    || upper == inputs
    || exists c :: Found(less, level, files, RangeOf(less, inputs + Overlapping(less, next, RangeOf(less, inputs))),
                         upper, c)
  }

  lemma IsExpanded(less: KeyOrder, level: nat, files: seq<Table>, next: seq<Table>, inputs: seq<Table>,
                   lower: seq<Table>, upper: seq<Table>, c: Bounds)
    requires inputs != [] && lower == Overlapping(less, next, RangeOf(less, inputs))
    requires Found(less, level, files, RangeOf(less, inputs + lower), upper, c)
    ensures Expanded(less, level, files, next, inputs, upper)
  {
    hide Found;
    hide Overlapping;
  }

  // The tables of the next level that overlap the inputs; then more of the inputs'
  // own level, if that takes no more of the next.
  method SetupOtherInputs(less: KeyOrder, level: nat, files: seq<Table>, next: seq<Table>, inputs: seq<Table>,
                          limit: nat)
    returns (upper: seq<Table>, lower: seq<Table>)
    requires LevelOk(less, level, files) && LevelOk(less, level + 1, next) && inputs != []
    requires Whole(less, level, files, inputs)
    ensures upper != [] && Whole(less, level, files, upper) && lower == Overlapping(less, next, RangeOf(less, upper))
    ensures forall t :: t in inputs ==> t in upper
    // What the level holds in the range of both is taken when that is more, not too
    // much, and overlaps no more of the next level; otherwise nothing is added.
    ensures var lower0 := Overlapping(less, next, RangeOf(less, inputs));
      && (lower0 == [] ==> upper == inputs)
      && (lower0 != [] ==> exists e, c :: Found(less, level, files, RangeOf(less, inputs + lower0), e, c))
      && forall e, c :: lower0 != [] && Found(less, level, files, RangeOf(less, inputs + lower0), e, c) ==>
           if |e| > |inputs| && TotalFileSize(lower0) + TotalFileSize(e) < limit
              && |Overlapping(less, next, RangeOf(less, e))| == |lower0|
           then upper == e
           else upper == inputs
    ensures Expanded(less, level, files, next, inputs, upper)
    ensures level > 0 ==> (upper, lower) == OtherInputs(less, files, next, inputs, limit)
  {
    hide LevelOk;
    hide Whole;
    hide Found;
    upper := inputs;
    var smallest, largest := GetRange(less, inputs);
    lower := GetOverlappingInputs(less, level + 1, next, Some(smallest.key), Some(largest.key));
    assert Bounds(Some(smallest.key), Some(largest.key)) == RangeOf(less, inputs);
    if lower != [] {
      var allStart, allLimit := GetRange(less, inputs + lower);
      var expanded0;
      expanded0 := GetOverlappingInputs(less, level, files, Some(allStart.key), Some(allLimit.key));
      ghost var c :| Found(less, level, files, Bounds(Some(allStart.key), Some(allLimit.key)), expanded0, c);
      assert Bounds(Some(allStart.key), Some(allLimit.key)) == RangeOf(less, inputs + lower);
      OnlyFound(less, level, files, RangeOf(less, inputs + lower), expanded0, c);
      hide Overlapping;
      if |expanded0| > |inputs| && TotalFileSize(lower) + TotalFileSize(expanded0) < limit {
        FoundIsWhole(less, level, files, RangeOf(less, inputs + lower), expanded0, c);
        var newStart, newLimit := GetRange(less, expanded0);
        var expanded1;
        expanded1 := GetOverlappingInputs(less, level + 1, next, Some(newStart.key), Some(newLimit.key));
        if |expanded1| == |lower| {
          InputsAreFound(less, level, files, inputs, lower, expanded0, c);
          IsExpanded(less, level, files, next, inputs, lower, expanded0, c);
          upper, lower := expanded0, expanded1;
        }
      }
    }
  }

  function OtherInputs(less: KeyOrder, files: seq<Table>, next: seq<Table>, inputs: seq<Table>,
                       limit: nat): (seq<Table>, seq<Table>)
    requires inputs != []
  {
    var lower := Overlapping(less, next, RangeOf(less, inputs));
    if lower == [] then (inputs, lower)
    else
      var expanded0 := Overlapping(less, files, RangeOf(less, inputs + lower));
      if |expanded0| <= |inputs| || TotalFileSize(lower) + TotalFileSize(expanded0) >= limit then (inputs, lower)
      else
        var expanded1 := Overlapping(less, next, RangeOf(less, expanded0));
        if |expanded1| != |lower| then (inputs, lower) else (expanded0, expanded1)
  }

  // CompactRange takes what overlaps the range asked for, but from level 1 on only as
  // far as one compaction may go.
  method CompactRange(less: KeyOrder, level: nat, files: seq<Table>, begin: Option<Key>, end: Option<Key>, limit: nat)
    returns (inputs: seq<Table>)
    requires LevelOk(less, level, files)
    ensures inputs != [] ==> Whole(less, level, files, inputs)
    ensures level > 0 ==>
      var all := Overlapping(less, files, Bounds(begin, end));
      && inputs == UpToLimit(all, limit)
      && (inputs == all || (inputs != [] && TotalFileSize(inputs) >= limit))
      && (|inputs| > 1 ==> TotalFileSize(inputs[..|inputs| - 1]) < limit)
    ensures level == 0 ==> exists c :: Found(less, 0, files, Bounds(begin, end), inputs, c)
  {
    hide LevelOk;
    hide Found;
    inputs := GetOverlappingInputs(less, level, files, begin, end);
    ghost var c :| Found(less, level, files, Bounds(begin, end), inputs, c);
    if inputs == [] { return; }
    FoundIsWhole(less, level, files, Bounds(begin, end), inputs, c);
    if level > 0 {
      ghost var found := inputs;
      var total := 0;
      for i := 0 to |inputs|
        invariant inputs == found && total == TotalFileSize(found[..i])
        invariant i > 0 ==> total < limit
      {
        assert found[..i + 1][..i] == found[..i];
        total := total + inputs[i].size;
        if total >= limit {
          inputs := inputs[..i + 1];
          FirstToLimit(found, i + 1, limit);
          PrefixIsWhole(less, level, files, found, i + 1);
          return;
        }
      }
      assert found[..|found|] == found;
      BelowLimit(found, limit);
    }
  }

  // The shortest beginning that comes to the limit, or all.
  function UpToLimit(files: seq<Table>, limit: nat): (taken: seq<Table>)
    ensures taken <= files && (taken == files || (taken != [] && TotalFileSize(taken) >= limit))
    ensures |taken| > 1 ==> TotalFileSize(taken[..|taken| - 1]) < limit
  {
    if files == [] then []
    else
      var before := files[..|files| - 1];
      if before != [] && TotalFileSize(before) >= limit then UpToLimit(before, limit) else files
  }

  lemma {:induction false} FirstToLimit(files: seq<Table>, n: nat, limit: nat)
    requires 0 < n <= |files| && TotalFileSize(files[..n]) >= limit
    requires n > 1 ==> TotalFileSize(files[..n - 1]) < limit
    ensures UpToLimit(files, limit) == files[..n]
  {
    if n < |files| {
      var before := files[..|files| - 1];
      assert before[..n] == files[..n] && before[..n - 1] == files[..n - 1];
      FirstToLimit(before, n, limit);
      MoreIsLarger(before, n);
    } else {
      assert files[..n] == files;
    }
  }

  lemma {:induction false} MoreIsLarger(files: seq<Table>, n: nat)
    requires n <= |files|
    ensures TotalFileSize(files[..n]) <= TotalFileSize(files)
  {
    if n < |files| {
      assert files[..|files| - 1][..n] == files[..n];
      MoreIsLarger(files[..|files| - 1], n);
    } else {
      assert files[..n] == files;
    }
  }

  lemma BelowLimit(files: seq<Table>, limit: nat)
    requires files != [] ==> TotalFileSize(files) < limit
    ensures UpToLimit(files, limit) == files
  {
    if files != [] { MoreIsLarger(files, |files| - 1); }
  }

  lemma PrefixIsWhole(less: KeyOrder, level: nat, files: seq<Table>, inputs: seq<Table>, n: nat)
    requires level > 0 && Whole(less, level, files, inputs) && 0 < n <= |inputs|
    ensures Whole(less, level, files, inputs[..n])
  {
    var a: nat, b: nat :| Stretch(files, a, b, inputs);
    assert Stretch(files, a, a + n, inputs[..n]);
  }

  // ----- When the cut is clean -----

  ghost predicate SplitAt(files: seq<Table>, inputs: seq<Table>, b: nat) {
    0 < b < |files| && inputs != [] && files[b - 1] == inputs[|inputs| - 1]
    && files[b].smallest.key == files[b - 1].largest.key
  }

  // The table behind the inputs begins with the user key they end with.
  ghost predicate SplitsKey(files: seq<Table>, inputs: seq<Table>) {
    exists b: nat :: SplitAt(files, inputs, b)
  }

  lemma KeyOutside(less: KeyOrder, t: Table, r: Bounds, k: Key)
    requires TotalOrder(less) && TableOk(less, t) && !Overlaps(less, t, r)
    requires (r.begin.Some? ==> !less(k, r.begin.value)) && (r.end.Some? ==> !less(r.end.value, k))
    ensures forall o :: o in t.entries ==> o.key != k
  {
    KeysOrdered(less, t);
  }

  lemma ClosedSharesNothing(less: KeyOrder, files: seq<Table>, r: Bounds, inputs: seq<Table>, e: Entry, o: Entry)
    requires LevelOk(less, 0, files) && Closed(less, files, r) && inputs == Overlapping(less, files, r)
    requires e in InTables(inputs) && o in InTables(files) - InTables(inputs)
    ensures e.key != o.key
  {
    InOverlapping(less, files, r);
    var t :| t in inputs && e in t.entries;
    var u :| u in files && o in u.entries;
    KeysOrdered(less, t);
    KeyOutside(less, u, r, e.key);
  }

  lemma NextSharesNothing(less: KeyOrder, upper: seq<Table>, next: seq<Table>, e: Entry, o: Entry)
    requires TotalOrder(less) && upper != [] && (forall t :: t in upper + next ==> TableOk(less, t))
    requires e in InTables(upper) && o in InTables(next) - InTables(Overlapping(less, next, RangeOf(less, upper)))
    ensures e.key != o.key
  {
    var r := RangeOf(less, upper);
    InOverlapping(less, next, r);
    var t :| t in upper && e in t.entries;
    var u :| u in next && o in u.entries;
    assert TableOk(less, t) && TableOk(less, u);
    KeysOrdered(less, t);
    InRange(less, upper, t);
    KeyOutside(less, u, r, e.key);
  }

  // In a run what comes in a later table comes later.
  lemma Follows(less: KeyOrder, files: seq<Table>, i: nat, j: nat, e: Entry, o: Entry)
    requires LevelOk(less, 1, files) && i < j < |files| && e in files[i].entries && o in files[j].entries
    ensures Precedes(less, e, o)
    ensures e.key == o.key ==> files[i].largest.key == e.key == files[j].smallest.key
  {
    assert TableOk(less, files[i]) && TableOk(less, files[j]);
    KeysOrdered(less, files[i]);
    KeysOrdered(less, files[j]);
    var x :| 0 <= x < |files[i].entries| && files[i].entries[x] == e;
    var y :| 0 <= y < |files[j].entries| && files[j].entries[y] == o;
    assert x < |files[i].entries| - 1 ==> Precedes(less, files[i].entries[x], files[i].largest);
    assert y > 0 ==> Precedes(less, files[j].smallest, files[j].entries[y]);
    assert Precedes(less, files[i].largest, files[j].smallest);
  }

  lemma SameKeyBetween(less: KeyOrder, x: Entry, y: Entry, z: Entry)
    requires TotalOrder(less) && x.key == z.key && (x == y || Precedes(less, x, y)) && (y == z || Precedes(less, y, z))
    ensures y.key == x.key
  {
  }

  lemma EndsAreEntries(less: KeyOrder, t: Table)
    requires TableOk(less, t)
    ensures t.smallest in t.entries && t.largest in t.entries
  {
  }

  lemma TableOf(files: seq<Table>, e: Entry) returns (i: nat)
    requires e in InTables(files)
    ensures i < |files| && e in files[i].entries
  {
    var t :| t in files && e in t.entries;
    i :| 0 <= i < |files| && files[i] == t;
  }

  // A key on both sides of b is the last before it and the first behind it.
  lemma KeyAcross(less: KeyOrder, files: seq<Table>, i: nat, b: nat, j: nat, e: Entry, o: Entry)
    requires LevelOk(less, 1, files) && i < b <= j < |files| && e in files[i].entries && o in files[j].entries
    requires e.key == o.key
    ensures files[b - 1].largest.key == e.key == files[b].smallest.key
  {
    var last, first := files[b - 1].largest, files[b].smallest;
    assert TableOk(less, files[b - 1]) && TableOk(less, files[b]);
    EndsAreEntries(less, files[b - 1]);
    EndsAreEntries(less, files[b]);
    Follows(less, files, i, j, e, o);
    if i < b - 1 { Follows(less, files, i, b - 1, e, last); }
    Follows(less, files, b - 1, j, last, o);
    if b < j { Follows(less, files, b, j, first, o); }
    Follows(less, files, i, b, e, first);
    assert TotalOrder(less);
    hide *;
    if i < b - 1 { SameKeyBetween(less, e, last, o); }
    if b < j { SameKeyBetween(less, e, first, o); }
  }

  // Older entries of an input's key stay behind only where the table behind the
  // inputs begins with the key they end with.
  lemma OlderIsBehind(less: KeyOrder, files: seq<Table>, a: nat, b: nat, inputs: seq<Table>, e: Entry, o: Entry)
    requires LevelOk(less, 1, files) && Stretch(files, a, b, inputs)
    requires e in InTables(inputs) && o in InTables(files) - InTables(inputs) && e.key == o.key && o.seqno <= e.seqno
    ensures SplitAt(files, inputs, b) && e.key == files[b - 1].largest.key
  {
    var k := TableOf(inputs, e);
    var i := a + k;
    var j := TableOf(files, o);
    if j < a { Follows(less, files, j, i, o, e); }
    KeyAcross(less, files, i, b, j, e, o);
  }

  lemma OneEntryOneTable(less: KeyOrder, files: seq<Table>, i: nat, j: nat, e: Entry)
    requires LevelOk(less, 1, files) && i < |files| && j < |files| && e in files[i].entries && e in files[j].entries
    ensures i == j
  {
    if i < j { Follows(less, files, i, j, e, e); }
    if j < i { Follows(less, files, j, i, e, e); }
  }

  // And there they do.
  lemma BehindIsOlder(less: KeyOrder, files: seq<Table>, a: nat, b: nat, inputs: seq<Table>, n: nat)
    requires LevelOk(less, 1, files) && Stretch(files, a, b, inputs) && SplitAt(files, inputs, n)
    ensures n == b
    ensures var e, o := files[b - 1].largest, files[b].smallest;
      e in InTables(inputs) && o in InTables(files) - InTables(inputs) && e.key == o.key && o.seqno < e.seqno
  {
    assert inputs[|inputs| - 1] == files[b - 1];
    assert TableOk(less, files[b - 1]) && TableOk(less, files[n]);
    EndsAreEntries(less, files[b - 1]);
    EndsAreEntries(less, files[n]);
    var e, o := files[b - 1].largest, files[n].smallest;
    OneEntryOneTable(less, files, n - 1, b - 1, e);
    Follows(less, files, b - 1, b, e, o);
    assert files[b] in files && inputs[|inputs| - 1] in inputs;
    if t :| t in inputs && o in t.entries {
      var k :| 0 <= k < |inputs| && inputs[k] == t;
      OneEntryOneTable(less, files, a + k, b, o);
    }
  }

  // What stays in the inputs' level is newer, for each key.
  ghost predicate NewerStays(files: seq<Table>, inputs: seq<Table>) {
    forall e, o :: e in InTables(inputs) && o in InTables(files) - InTables(inputs) && e.key == o.key
      ==> o.seqno > e.seqno
  }

  // In level 0 always, and further down just when no key is split.
  lemma NewerStaysIff(less: KeyOrder, level: nat, files: seq<Table>, inputs: seq<Table>)
    requires LevelOk(less, level, files) && inputs != [] && Whole(less, level, files, inputs)
    ensures NewerStays(files, inputs) <==> level == 0 || !SplitsKey(files, inputs)
  {
    if level == 0 {
      var r :| Closed(less, files, r) && inputs == Overlapping(less, files, r);
      forall e, o | e in InTables(inputs) && o in InTables(files) - InTables(inputs)
        ensures e.key != o.key
      {
        ClosedSharesNothing(less, files, r, inputs, e, o);
      }
    } else {
      var a: nat, b: nat :| Stretch(files, a, b, inputs);
      assert LevelOk(less, 1, files);
      hide *;
      if n: nat :| SplitAt(files, inputs, n) {
        BehindIsOlder(less, files, a, b, inputs, n);
        IsSplit(files, inputs, n);
        OldStays(files, inputs, files[b - 1].largest, files[b].smallest);
      } else {
        NotSplit(files, inputs);
        AllNewer(less, files, a, b, inputs);
      }
    }
  }

  lemma IsSplit(files: seq<Table>, inputs: seq<Table>, n: nat)
    requires SplitAt(files, inputs, n)
    ensures SplitsKey(files, inputs)
  {
  }

  lemma NotSplit(files: seq<Table>, inputs: seq<Table>)
    requires forall n: nat :: !SplitAt(files, inputs, n)
    ensures !SplitsKey(files, inputs)
  {
  }

  lemma OldStays(files: seq<Table>, inputs: seq<Table>, e: Entry, o: Entry)
    requires e in InTables(inputs) && o in InTables(files) - InTables(inputs) && e.key == o.key && o.seqno < e.seqno
    ensures !NewerStays(files, inputs)
  {
  }

  lemma AllNewer(less: KeyOrder, files: seq<Table>, a: nat, b: nat, inputs: seq<Table>)
    requires LevelOk(less, 1, files) && Stretch(files, a, b, inputs) && !SplitsKey(files, inputs)
    ensures NewerStays(files, inputs)
  {
    forall e, o | e in InTables(inputs) && o in InTables(files) - InTables(inputs) && e.key == o.key
      ensures o.seqno > e.seqno
    {
      if o.seqno <= e.seqno { OlderIsBehind(less, files, a, b, inputs, e, o); }
    }
  }

  // No key of the inputs is taken to be at its base level while older entries of
  // it stay in the output level.
  ghost predicate NoneDroppedOver(next: seq<Table>, upper: seq<Table>, lower: seq<Table>, base: set<Key>) {
    forall e, o :: e in InTables(upper) + InTables(lower) && o in InTables(next) - InTables(lower) && e.key == o.key
                   && o.seqno <= e.seqno
      ==> e.key !in base
  }

  lemma StaysBehind(less: KeyOrder, next: seq<Table>, upper: seq<Table>, a: nat, b: nat, lower: seq<Table>, e: Entry,
                    o: Entry)
    requires LevelOk(less, 1, next) && upper != [] && (forall t :: t in upper ==> TableOk(less, t))
    requires lower == Overlapping(less, next, RangeOf(less, upper)) && Stretch(next, a, b, lower)
    requires e in InTables(upper) + InTables(lower) && o in InTables(next) - InTables(lower) && e.key == o.key
    requires o.seqno <= e.seqno
    ensures SplitAt(next, lower, b) && e.key == next[b - 1].largest.key
  {
    if e in InTables(upper) {
      NextSharesNothing(less, upper, next, e, o);
    } else {
      OlderIsBehind(less, next, a, b, lower, e, o);
    }
  }

  lemma DropsOverSplit(less: KeyOrder, next: seq<Table>, upper: seq<Table>, a: nat, b: nat, lower: seq<Table>,
                       base: set<Key>)
    requires LevelOk(less, 1, next) && upper != [] && (forall t :: t in upper ==> TableOk(less, t))
    requires lower == Overlapping(less, next, RangeOf(less, upper)) && Stretch(next, a, b, lower)
    requires SplitAt(next, lower, b)
    ensures NoneDroppedOver(next, upper, lower, base) <==> next[b - 1].largest.key !in base
  {
    BehindIsOlder(less, next, a, b, lower, b);
    hide InTables;
    hide LevelOk;
    hide TableOk;
    hide Overlapping;
    hide SplitAt;
    forall e, o | e in InTables(upper) + InTables(lower) && o in InTables(next) - InTables(lower) && e.key == o.key
                  && o.seqno <= e.seqno
      ensures e.key == next[b - 1].largest.key
    {
      StaysBehind(less, next, upper, a, b, lower, e, o);
    }
  }

  lemma DropsOverNothing(less: KeyOrder, next: seq<Table>, upper: seq<Table>, a: nat, b: nat, lower: seq<Table>,
                         base: set<Key>)
    requires LevelOk(less, 1, next) && upper != [] && (forall t :: t in upper ==> TableOk(less, t))
    requires lower == Overlapping(less, next, RangeOf(less, upper)) && Stretch(next, a, b, lower)
    requires !SplitAt(next, lower, b)
    ensures NoneDroppedOver(next, upper, lower, base)
  {
    hide InTables;
    hide LevelOk;
    hide TableOk;
    hide Overlapping;
    hide SplitAt;
    forall e, o | e in InTables(upper) + InTables(lower) && o in InTables(next) - InTables(lower) && e.key == o.key
      ensures o.seqno > e.seqno
    {
      if o.seqno <= e.seqno { StaysBehind(less, next, upper, a, b, lower, e, o); }
    }
  }

  // That can only be the key the lower inputs end with, when it is split.
  lemma NoneDroppedOverIff(less: KeyOrder, next: seq<Table>, upper: seq<Table>, lower: seq<Table>, base: set<Key>)
    requires LevelOk(less, 1, next) && upper != [] && (forall t :: t in upper ==> TableOk(less, t))
    requires lower == Overlapping(less, next, RangeOf(less, upper))
    ensures NoneDroppedOver(next, upper, lower, base)
            <==> !(SplitsKey(next, lower) && lower[|lower| - 1].largest.key in base)
  {
    var a, b := OverlappingIsStretch(less, next, RangeOf(less, upper));
    hide NoneDroppedOver;
    hide LevelOk;
    hide TableOk;
    hide Overlapping;
    hide Stretch;
    if n: nat :| SplitAt(next, lower, n) {
      BehindIsOlder(less, next, a, b, lower, n);
      DropsOverSplit(less, next, upper, a, b, lower, base);
    } else {
      DropsOverNothing(less, next, upper, a, b, lower, base);
    }
  }

  // ----- The store's view -----

  ghost function Contents(tables: seq<seq<Table>>): (levels: seq<set<Entry>>)
    ensures |levels| == |tables| && forall j :: 0 <= j < |tables| ==> levels[j] == InTables(tables[j])
  {
    seq(|tables|, j requires 0 <= j < |tables| => InTables(tables[j]))
  }

  // The tables are the store's levels, the files of level 0 one by one.
  ghost predicate TablesAre(less: KeyOrder, tables: seq<seq<Table>>, levels: seq<set<Entry>>, level0: seq<set<Entry>>) {
    && |tables| == NUM_LEVELS && Contents(tables) == levels
    && (forall j :: 0 <= j < NUM_LEVELS ==> LevelOk(less, j, tables[j]))
    && |tables[0]| == |level0| && forall i :: 0 <= i < |level0| ==> InTables([tables[0][i]]) == level0[i]
  }

  // No base key of the inputs has entries below the output level.
  ghost predicate BaseOk(tables: seq<seq<Table>>, level: nat, upper: seq<Table>, lower: seq<Table>, base: set<Key>) {
    forall e, o, j :: e in InTables(upper) + InTables(lower) && level + 2 <= j < |tables| && o in InTables(tables[j])
                      && e.key == o.key
      ==> e.key !in base
  }

  // The cut of picked inputs is clean exactly when neither the upper inputs end
  // within a key, other than in level 0, nor the lower ones within a base key.
  lemma PickedCutIsCleanIff(less: KeyOrder, tables: seq<seq<Table>>, level: nat, upper: seq<Table>, lower: seq<Table>,
                            smallest: nat, base: set<Key>)
    requires level + 1 < |tables| && forall j :: 0 <= j < |tables| ==> LevelOk(less, j, tables[j])
    requires upper != [] && Whole(less, level, tables[level], upper)
    requires lower == Overlapping(less, tables[level + 1], RangeOf(less, upper))
    requires BaseOk(tables, level, upper, lower, base)
    ensures CleanCut(Contents(tables), Work(level, InTables(upper), InTables(lower), smallest, base))
       <==> (level == 0 || !SplitsKey(tables[level], upper))
            && !(SplitsKey(tables[level + 1], lower) && lower[|lower| - 1].largest.key in base)
  {
    assert LevelOk(less, level, tables[level]) && LevelOk(less, level + 1, tables[level + 1]);
    InputsAreTables(less, level, tables[level], upper);
    NewerStaysIff(less, level, tables[level], upper);
    NoneDroppedOverIff(less, tables[level + 1], upper, lower, base);
    hide LevelOk;
    hide InTables;
    hide Whole;
    hide SplitsKey;
    hide Overlapping;
    CutIs(tables, level, upper, lower, smallest, base);
  }

  lemma CutIs(tables: seq<seq<Table>>, level: nat, upper: seq<Table>, lower: seq<Table>, smallest: nat, base: set<Key>)
    requires level + 1 < |tables| && BaseOk(tables, level, upper, lower, base)
    ensures CleanCut(Contents(tables), Work(level, InTables(upper), InTables(lower), smallest, base))
       <==> NewerStays(tables[level], upper) && NoneDroppedOver(tables[level + 1], upper, lower, base)
  {
    hide InTables;
  }

  // ----- Inputs that grow -----

  lemma OverlappingTwo(less: KeyOrder, a: Table, b: Table, r: Bounds)
    ensures Overlapping(less, [a, b], r)
         == (if Overlaps(less, a, r) then [a] else []) + if Overlaps(less, b, r) then [b] else []
  {
    assert [a, b][..1] == [a] && [a][..0] == [];
    assert Overlapping(less, [a], r) == Overlapping(less, [], r) + if Overlaps(less, a, r) then [a] else [];
  }

  lemma RangeOfTwo(less: KeyOrder, a: Table, b: Table)
    ensures RangeOf(less, [a, b]) == Bounds(
      Some((if Precedes(less, b.smallest, a.smallest) then b.smallest else a.smallest).key),
      Some((if Precedes(less, a.largest, b.largest) then b.largest else a.largest).key))
  {
    assert [a, b][..1] == [a];
    assert Smallest(less, [a]) == a.smallest && Largest(less, [a]) == a.largest;
  }

  function Span(first: Byte, last: Byte, n: nat): Table {
    Table(Entry([first], n, Put, []), Entry([last], n + 1, Put, []), 1,
          [Entry([first], n, Put, []), Entry([last], n + 1, Put, [])])
  }

  ghost predicate SixInARow(less: KeyOrder) {
    && TotalOrder(less)
    && less([1], [2]) && less([2], [3]) && less([3], [5]) && less([5], [6]) && less([6], [7])
  }

  // The first table takes the one below, and that one the second.
  const FIRST := Span(1, 3, 1)
  const SECOND := Span(5, 7, 3)
  const BELOW := Span(2, 6, 5)

  lemma RowOrder(less: KeyOrder)
    requires SixInARow(less)
    ensures less([1], [3]) && less([1], [5]) && less([1], [6]) && less([1], [7]) && less([2], [5])
    ensures less([2], [6]) && less([2], [7]) && less([3], [6]) && less([3], [7]) && less([5], [7])
  {
  }

  lemma SpansOk(less: KeyOrder, level: nat)
    requires SixInARow(less)
    ensures LevelOk(less, level, [FIRST, SECOND]) && LevelOk(less, level, [BELOW])
  {
    RowOrder(less);
    assert TableOk(less, FIRST) && TableOk(less, SECOND) && TableOk(less, BELOW);
  }

  lemma SpanRanges(less: KeyOrder)
    requires SixInARow(less)
    ensures RangeOf(less, [FIRST]) == Bounds(Some([1]), Some([3]))
    ensures RangeOf(less, [FIRST, BELOW]) == Bounds(Some([1]), Some([6]))
    ensures RangeOf(less, [FIRST, SECOND]) == Bounds(Some([1]), Some([7]))
  {
    RowOrder(less);
    RangeOfTwo(less, FIRST, BELOW);
    RangeOfTwo(less, FIRST, SECOND);
  }

  lemma BelowOverlaps(less: KeyOrder)
    requires SixInARow(less)
    ensures Overlapping(less, [BELOW], RangeOf(less, [FIRST])) == [BELOW]
    ensures Overlapping(less, [BELOW], RangeOf(less, [FIRST, SECOND])) == [BELOW]
  {
    RowOrder(less);
    SpanRanges(less);
    hide RangeOf;
    assert [BELOW][..0] == [];
    assert forall r :: Overlapping(less, [BELOW], r)
                    == Overlapping(less, [], r) + if Overlaps(less, BELOW, r) then [BELOW] else [];
  }

  lemma SecondIsFound(less: KeyOrder, level: nat)
    requires SixInARow(less)
    ensures exists c :: Found(less, level, [FIRST, SECOND], Bounds(Some([1]), Some([6])), [FIRST, SECOND], c)
  {
    RowOrder(less);
    var files, r := [FIRST, SECOND], Bounds(Some([1]), Some([6]));
    var c := if level == 0 then Bounds(Some([1]), Some([7])) else r;
    OverlappingTwo(less, FIRST, SECOND, c);
    hide Overlapping;
    if level == 0 {
      forall d | Within(less, r, d) && Closed(less, files, d)
        ensures Within(less, c, d)
      {
        assert SECOND in files;
      }
    }
    assert Found(less, level, files, r, files, c);
  }

  lemma FirstIsWhole(less: KeyOrder, level: nat)
    requires SixInARow(less)
    ensures Whole(less, level, [FIRST, SECOND], [FIRST])
  {
    RowOrder(less);
    var r := Bounds(Some([1]), Some([3]));
    OverlappingTwo(less, FIRST, SECOND, r);
    hide Overlapping;
    if level == 0 {
      assert Closed(less, [FIRST, SECOND], r);
    } else {
      assert Stretch([FIRST, SECOND], 0, 1, [FIRST]);
    }
  }

  lemma SpanSizes()
    ensures TotalFileSize([BELOW]) + TotalFileSize([FIRST, SECOND]) == 3
  {
    TotalOfBoth([FIRST], [SECOND]);
    assert [FIRST] + [SECOND] == [FIRST, SECOND];
  }

  method InputsGrow(less: KeyOrder, level: nat) returns (upper: seq<Table>, lower: seq<Table>)
    requires SixInARow(less)
    ensures upper == [FIRST, SECOND] && lower == [BELOW]
  {
    hide *;
    SpansOk(less, level);
    SpansOk(less, level + 1);
    SpanRanges(less);
    BelowOverlaps(less);
    FirstIsWhole(less, level);
    SecondIsFound(less, level);
    SpanSizes();
    assert [FIRST] + [BELOW] == [FIRST, BELOW];
    ghost var c :| Found(less, level, [FIRST, SECOND], Bounds(Some([1]), Some([6])), [FIRST, SECOND], c);
    upper, lower := SetupOtherInputs(less, level, [FIRST, SECOND], [BELOW], [FIRST], 100);
  }
}
