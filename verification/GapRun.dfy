// A manual compaction with a gap between its inputs, and a write that no read finds
// any more: nothing fails, and nothing is lost on disk.
module GapRuns {
  import opened Basics
  import opened Compaction
  import opened Entries
  import opened Layouts
  import opened Store
  import opened VersionSets
  import opened Versions

  // Five keys in this order.
  ghost predicate InARow(less: KeyOrder) {
    TotalOrder(less) && less([1], [3]) && less([3], [13]) && less([13], [24]) && less([24], [26])
  }

  lemma RowOrder(less: KeyOrder)
    requires InARow(less)
    ensures less([1], [13]) && less([1], [24]) && less([1], [26]) && less([3], [24]) && less([3], [26])
    ensures less([13], [26])
  {
  }

  function PutAt(k: Byte, n: nat): Entry {
    Entry([k], n, Put, [9])
  }

  function Pair(a: Entry, b: Entry): Table {
    Table(a, b, 1, [a, b])
  }

  const OLD_LEFT := Pair(PutAt(1, 1), PutAt(3, 2))
  const OLD_RIGHT := Pair(PutAt(24, 3), PutAt(26, 4))
  const NEW_LEFT := Pair(PutAt(1, 5), PutAt(3, 6))
  const NEW_RIGHT := Pair(PutAt(24, 7), PutAt(26, 8))
  const MIDDLE := OneEntry(PutAt(13, 9))
  const MERGED := Table(PutAt(1, 5), PutAt(26, 8), 1, [PutAt(1, 5), PutAt(3, 6), PutAt(24, 7), PutAt(26, 8)])

  const WORK := TableWork(1, [NEW_LEFT, NEW_RIGHT], [OLD_LEFT, OLD_RIGHT])

  function At(first: seq<Table>, second: seq<Table>, work: Option<TableWork>): Layout {
    Layout([[], first, second, [], [], [], []], work)
  }

  // Two flushes go to level 2 and newer versions of the same keys to level 1; while
  // both are compacted by hand, a key in between is flushed.
  const RUN := [
    FlushTable(OLD_LEFT, 2), FlushTable(OLD_RIGHT, 2), FlushTable(NEW_LEFT, 1), FlushTable(NEW_RIGHT, 1),
    Begin(WORK), FlushTable(MIDDLE, 2), Install([MERGED])
  ]

  lemma Separate(less: KeyOrder, t: Table, u: Table)
    requires TotalOrder(less) && TableOk(less, t) && TableOk(less, u)
    requires less(t.largest.key, u.smallest.key) || less(u.largest.key, t.smallest.key)
    ensures !Overlaps(less, t, UserRange(u)) && !Overlaps(less, u, UserRange(t))
  {
  }

  lemma TablesOk(less: KeyOrder)
    requires InARow(less)
    ensures TableOk(less, OLD_LEFT) && TableOk(less, OLD_RIGHT) && TableOk(less, NEW_LEFT) && TableOk(less, NEW_RIGHT)
    ensures TableOk(less, MIDDLE) && TableOk(less, MERGED)
  {
    RowOrder(less);
  }

  lemma TwoFlushesBelow(less: KeyOrder)
    requires InARow(less)
    ensures Changes(less, At([], [], None), FlushTable(OLD_LEFT, 2), At([], [OLD_LEFT], None))
    ensures Changes(less, At([], [OLD_LEFT], None), FlushTable(OLD_RIGHT, 2), At([], [OLD_LEFT, OLD_RIGHT], None))
  {
    RowOrder(less);
    TablesOk(less);
    Separate(less, OLD_LEFT, OLD_RIGHT);
    hide TableOk;
    hide Overlaps;
    AddFirst(less, OLD_LEFT, OLD_RIGHT);
  }

  lemma TwoFlushesAbove(less: KeyOrder)
    requires InARow(less)
    ensures var below := [OLD_LEFT, OLD_RIGHT];
      && Changes(less, At([], below, None), FlushTable(NEW_LEFT, 1), At([NEW_LEFT], below, None))
      && Changes(less, At([NEW_LEFT], below, None), FlushTable(NEW_RIGHT, 1), At([NEW_LEFT, NEW_RIGHT], below, None))
  {
    RowOrder(less);
    TablesOk(less);
    Separate(less, NEW_LEFT, NEW_RIGHT);
    hide TableOk;
    hide Overlaps;
    AddFirst(less, NEW_LEFT, NEW_RIGHT);
  }

  lemma AddFirst(less: KeyOrder, t: Table, u: Table)
    requires TotalOrder(less) && less(t.smallest.key, u.smallest.key)
    ensures Edited(less, 1, [], [], [t], [t]) && Edited(less, 1, [t], [], [u], [t, u])
    ensures Edited(less, 2, [], [], [t], [t]) && Edited(less, 2, [t], [], [u], [t, u])
  {
  }

  lemma BothOverlap(less: KeyOrder, t: Table, u: Table, r: Bounds)
    requires Overlaps(less, t, r) && Overlaps(less, u, r)
    ensures Overlapping(less, [t, u], r) == [t, u]
  {
    OverlappingTwo(less, t, u, r);
  }

  lemma LowerInputs(less: KeyOrder)
    requires InARow(less)
    ensures Overlapping(less, WORK.lower, RangeOf(less, WORK.upper)) == WORK.lower
  {
    RowOrder(less);
    RangeOfTwo(less, NEW_LEFT, NEW_RIGHT);
    BothOverlap(less, OLD_LEFT, OLD_RIGHT, KeyRange([1], [26]));
  }

  lemma CompactionBegins(less: KeyOrder)
    requires InARow(less)
    ensures var s := At([NEW_LEFT, NEW_RIGHT], [OLD_LEFT, OLD_RIGHT], None);
      Changes(less, s, Begin(WORK), s.(work := Some(WORK)))
  {
    LowerInputs(less);
    hide Overlapping;
  }

  // The gap takes the flush, down to the level of the outputs.
  lemma FlushInTheGap(less: KeyOrder)
    requires InARow(less)
    ensures var s := At([NEW_LEFT, NEW_RIGHT], [OLD_LEFT, OLD_RIGHT], Some(WORK));
      Changes(less, s, FlushTable(MIDDLE, 2), s.(levels := s.levels[2 := [OLD_LEFT, MIDDLE, OLD_RIGHT]]))
  {
    RowOrder(less);
    TablesOk(less);
    Separate(less, OLD_LEFT, MIDDLE);
    Separate(less, OLD_RIGHT, MIDDLE);
    Separate(less, NEW_LEFT, MIDDLE);
    Separate(less, NEW_RIGHT, MIDDLE);
    hide TableOk;
    hide Overlaps;
  }

  lemma InputsGo(less: KeyOrder)
    requires InARow(less)
    ensures Edited(less, 1, [NEW_LEFT, NEW_RIGHT], WORK.upper, [], [])
    ensures Edited(less, 2, [OLD_LEFT, MIDDLE, OLD_RIGHT], WORK.lower, [MERGED], [MERGED, MIDDLE])
  {
    RowOrder(less);
  }

  // All entries kept are the newest of their keys.
  lemma OutputsAre(less: KeyOrder)
    requires InARow(less)
    ensures OutputsOf(less, WORK, [MERGED])
  {
    TablesOk(less);
    assert NEW_LEFT in Inputs(WORK) && NEW_RIGHT in Inputs(WORK);
    forall e | e in InTables([MERGED])
      ensures e in InTables(Inputs(WORK))
    {
      assert e in MERGED.entries;
      assert e in NEW_LEFT.entries || e in NEW_RIGHT.entries;
    }
  }

  lemma InputEntries()
    ensures InTables(Inputs(WORK))
         == Range(OLD_LEFT.entries) + Range(OLD_RIGHT.entries) + Range(NEW_LEFT.entries) + Range(NEW_RIGHT.entries)
  {
    assert Inputs(WORK) == [NEW_LEFT, NEW_RIGHT, OLD_LEFT, OLD_RIGHT];
    assert NEW_LEFT in Inputs(WORK) && NEW_RIGHT in Inputs(WORK);
    assert OLD_LEFT in Inputs(WORK) && OLD_RIGHT in Inputs(WORK);
  }

  // When each key has one entry on top of the others, and all are puts, these are kept.
  lemma TopIsKept(top: set<Entry>, rest: set<Entry>, smallest: nat, base: set<Key>)
    requires forall e :: e in top ==> e.kind.Put? && e.seqno <= smallest
    requires forall e, f :: e in top && f in top && e.key == f.key ==> e == f
    requires forall e :: e in rest ==> exists f :: f in top && f.key == e.key && e.seqno < f.seqno
    ensures Kept(rest + top, smallest, base) == top
  {
    forall e | e in top
      ensures !Hidden(rest + top, smallest, e)
    {
    }
    forall e | e in rest
      ensures Hidden(rest + top, smallest, e)
    {
      var f :| f in top && f.key == e.key && e.seqno < f.seqno;
      assert f in rest + top;
    }
  }

  function Both(t: Table, u: Table): set<Entry> {
    Range(t.entries) + Range(u.entries)
  }

  lemma OldBelowNew(e: Entry)
    requires e in Both(OLD_LEFT, OLD_RIGHT)
    ensures exists f :: f in Both(NEW_LEFT, NEW_RIGHT) && f.key == e.key && e.seqno < f.seqno
  {
    assert NEW_LEFT.entries[0] in Both(NEW_LEFT, NEW_RIGHT) && NEW_LEFT.entries[1] in Both(NEW_LEFT, NEW_RIGHT);
    assert NEW_RIGHT.entries[0] in Both(NEW_LEFT, NEW_RIGHT) && NEW_RIGHT.entries[1] in Both(NEW_LEFT, NEW_RIGHT);
  }

  // The outputs are what the drop rules keep, without snapshots and with 8 writes published.
  lemma OutputsAreKept(base: set<Key>)
    ensures Kept(InTables(Inputs(WORK)), 8, base) == Range(MERGED.entries)
  {
    var top, rest := Both(NEW_LEFT, NEW_RIGHT), Both(OLD_LEFT, OLD_RIGHT);
    InputEntries();
    assert InTables(Inputs(WORK)) == rest + top;
    NewEntries();
    hide InTables;
    forall e | e in rest
      ensures exists f :: f in top && f.key == e.key && e.seqno < f.seqno
    {
      OldBelowNew(e);
    }
    hide Both;
    TopIsKept(top, rest, 8, base);
  }

  lemma NewEntries()
    ensures Both(NEW_LEFT, NEW_RIGHT) == Range(MERGED.entries)
    ensures forall e :: e in Both(NEW_LEFT, NEW_RIGHT) ==> e.kind.Put? && e.seqno <= 8
    ensures forall e, f :: e in Both(NEW_LEFT, NEW_RIGHT) && f in Both(NEW_LEFT, NEW_RIGHT) && e.key == f.key ==> e == f
  {
    var m := MERGED.entries;
    assert m == NEW_LEFT.entries + NEW_RIGHT.entries;
    assert forall e :: e in m <==> e in NEW_LEFT.entries || e in NEW_RIGHT.entries;
    assert forall i, j :: 0 <= i < |m| && 0 <= j < |m| && m[i].key == m[j].key ==> i == j;
  }

  lemma CompactionEnds(less: KeyOrder)
    requires InARow(less)
    ensures Changes(less, At([NEW_LEFT, NEW_RIGHT], [OLD_LEFT, MIDDLE, OLD_RIGHT], Some(WORK)), Install([MERGED]),
                    At([], [MERGED, MIDDLE], None))
  {
    InputsGo(less);
    OutputsAre(less);
    hide Edited;
    hide OutputsOf;
  }

  lemma {:induction false} OneByOne(less: KeyOrder, states: seq<Layout>, changes: seq<Change>)
    requires |states| == |changes| + 1
    requires forall i :: 0 <= i < |changes| ==> Changes(less, states[i], changes[i], states[i + 1])
    ensures LeadsTo(less, states[0], changes, states[|changes|])
    decreases |changes|
  {
    hide Changes;
    if changes != [] { OneByOne(less, states[1..], changes[1..]); }
  }

  lemma RunIsPossible(less: KeyOrder)
    requires InARow(less)
    ensures LeadsTo(less, At([], [], None), RUN, At([], [MERGED, MIDDLE], None))
  {
    TwoFlushesBelow(less);
    TwoFlushesAbove(less);
    CompactionBegins(less);
    FlushInTheGap(less);
    CompactionEnds(less);
    hide Changes;
    var below, above, mid := [OLD_LEFT, OLD_RIGHT], [NEW_LEFT, NEW_RIGHT], [OLD_LEFT, MIDDLE, OLD_RIGHT];
    var states := [
      At([], [], None), At([], [OLD_LEFT], None), At([], below, None), At([NEW_LEFT], below, None),
      At(above, below, None),
      At(above, below, Some(WORK)), At(above, mid, Some(WORK)), At([], [MERGED, MIDDLE], None)
    ];
    OneByOne(less, states, RUN);
  }

  // In the end the level holds the write, and the search for its file leads to
  // another one, which does not.
  lemma WriteIsMissed(less: KeyOrder)
    requires InARow(less)
    ensures LeadsTo(less, At([], [], None), RUN, At([], [MERGED, MIDDLE], None))
    ensures Lookup(InTables([MERGED, MIDDLE]), [13], 9) == Some([9])
    ensures Bisect(less, [MERGED, MIDDLE], LookupKey([13], 9), 0, 2) == 0 && !Has(Range(MERGED.entries), [13], 9)
  {
    RunIsPossible(less);
    FoundElsewhere(less);
    LevelHasIt();
    hide *;
    MergedHasNot();
  }

  lemma LevelHasIt()
    ensures Lookup(InTables([MERGED, MIDDLE]), [13], 9) == Some([9])
  {
    var all, e := InTables([MERGED, MIDDLE]), PutAt(13, 9);
    assert MIDDLE in [MERGED, MIDDLE] && e in MIDDLE.entries;
    forall f | f in all && f.key == [13]
      ensures f == e
    {
      var t :| t in [MERGED, MIDDLE] && f in t.entries;
    }
    OnlyOne(all, e);
  }

  lemma MergedHasNot()
    ensures !Has(Range(MERGED.entries), [13], 9)
  {
    assert forall e :: e in MERGED.entries ==> e.key != [13];
  }

  lemma FoundElsewhere(less: KeyOrder)
    requires InARow(less)
    ensures Bisect(less, [MERGED, MIDDLE], LookupKey([13], 9), 0, 2) == 0
  {
    RowOrder(less);
    assert Bisect(less, [MERGED, MIDDLE], LookupKey([13], 9), 0, 1) == 0;
  }

  lemma OnlyOne(es: set<Entry>, e: Entry)
    requires e in es && e.kind.Put? && forall f :: f in es && f.key == e.key ==> f == e
    ensures Lookup(es, e.key, e.seqno) == Some(e.value)
  {
    assert Finds(es, e.key, e.seqno, e);
  }

  // What the manual compaction takes, of all keys, when sizes allow for both tables.
  lemma BothAreTaken(less: KeyOrder, limit: nat, expandLimit: nat)
    requires InARow(less) && limit > 1
    ensures UpToLimit(Overlapping(less, WORK.upper, Bounds(None, None)), limit) == WORK.upper
    ensures OtherInputs(less, WORK.upper, WORK.lower, WORK.upper, expandLimit) == (WORK.upper, WORK.lower)
  {
    RowOrder(less);
    BothOverlap(less, NEW_LEFT, NEW_RIGHT, Bounds(None, None));
    assert WORK.upper[..1] == [NEW_LEFT] && TotalFileSize([NEW_LEFT]) == 1;
    LowerInputs(less);
    hide Overlapping;
    NoMoreThan(less, WORK.upper, RangeOf(less, WORK.upper + WORK.lower));
  }

  lemma {:induction false} NoMoreThan(less: KeyOrder, files: seq<Table>, r: Bounds)
    ensures |Overlapping(less, files, r)| <= |files|
  {
    if files != [] { NoMoreThan(less, files[..|files| - 1], r); }
  }
}
