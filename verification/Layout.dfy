// The tables of each level from 1 on never overlap, over every run: a flush goes where
// nothing overlaps it, and a compaction leaves no gap for a flush to come into.
module Layouts {
  import opened Basics
  import opened Compaction
  import opened DBImpls
  import opened Entries
  import opened Store
  import opened VersionSets
  import opened Versions
  import Mergers

  // One of the two ends before the other begins.
  predicate Clear(less: KeyOrder, t: Table, u: Table) {
    Precedes(less, t.largest, u.smallest) || Precedes(less, u.largest, t.smallest)
  }

  // ----- A new version of a level -----

  function Without(files: seq<Table>, gone: seq<Table>): (rest: seq<Table>)
    ensures forall t :: t in rest <==> t in files && t !in gone
  {
    if files == [] then [] else (if files[0] in gone then [] else [files[0]]) + Without(files[1..], gone)
  }

  ghost predicate BySmallest(less: KeyOrder, files: seq<Table>) {
    forall i, j :: 0 <= i < j < |files| ==> !Precedes(less, files[j].smallest, files[i].smallest)
  }

  ghost predicate NoneTwice(files: seq<Table>) {
    forall i, j :: 0 <= i < j < |files| ==> files[i] != files[j]
  }

  // An edit takes some files away and adds others. Level 0 is listed from the newest
  // file on, the others by their smallest keys.
  ghost predicate Edited(less: KeyOrder, level: nat, files: seq<Table>, gone: seq<Table>, added: seq<Table>,
                         after: seq<Table>) {
    if level == 0 then after == added + Without(files, gone)
    else
      && BySmallest(less, after) && NoneTwice(after)
      && forall t :: t in after <==> t in added || (t in files && t !in gone)
  }

  lemma EndsInOrder(less: KeyOrder, t: Table)
    requires TotalOrder(less) && TableOk(less, t)
    ensures t.smallest == t.largest || Precedes(less, t.smallest, t.largest)
  {
  }

  lemma SmallestTells(less: KeyOrder, t: Table, u: Table)
    requires TotalOrder(less) && TableOk(less, t) && TableOk(less, u) && Clear(less, t, u)
    requires !Precedes(less, u.smallest, t.smallest)
    ensures Precedes(less, t.largest, u.smallest)
  {
    EndsInOrder(less, u);
  }

  lemma RunIsClear(less: KeyOrder, files: seq<Table>, t: Table, u: Table)
    requires LevelOk(less, 1, files) && t in files && u in files && t != u
    ensures Clear(less, t, u)
  {
    var i :| 0 <= i < |files| && files[i] == t;
    var j :| 0 <= j < |files| && files[j] == u;
    assert i < j ==> Precedes(less, files[i].largest, files[j].smallest);
    assert j < i ==> Precedes(less, files[j].largest, files[i].smallest);
  }

  // All added files are clear of the base files that stay.
  ghost predicate AddsClear(less: KeyOrder, files: seq<Table>, gone: seq<Table>, added: seq<Table>) {
    && LevelOk(less, 1, files) && LevelOk(less, 1, added)
    && forall t, u :: t in added && u in files && u !in gone ==> Clear(less, t, u)
  }

  // They leave the level in order.
  lemma EditKeepsRun(less: KeyOrder, level: nat, files: seq<Table>, gone: seq<Table>, added: seq<Table>,
                     after: seq<Table>)
    requires AddsClear(less, files, gone, added) && level > 0
    requires Edited(less, level, files, gone, added, after)
    ensures LevelOk(less, 1, after)
  {
    hide TableOk;
    forall i, j | 0 <= i < j < |after|
      ensures Precedes(less, after[i].largest, after[j].smallest)
    {
      var t, u := after[i], after[j];
      assert t in after && u in after;
      if t in added && u in added {
        RunIsClear(less, added, t, u);
      } else if t !in added && u !in added {
        RunIsClear(less, files, t, u);
      } else {
        assert Clear(less, t, u);
      }
      SmallestTells(less, t, u);
    }
  }

  // ----- The state and its changes -----

  datatype TableWork = TableWork(level: nat, upper: seq<Table>, lower: seq<Table>)

  datatype Layout = Layout(levels: seq<seq<Table>>, work: Option<TableWork>)

  datatype Change =
    | FlushTable(table: Table, level: nat)
    | Begin(work: TableWork)
    | Install(outputs: seq<Table>)
    | MoveTable(level: nat, table: Table)
    | Crash

  function Inputs(w: TableWork): seq<Table> {
    w.upper + w.lower
  }

  function UserRange(t: Table): Bounds {
    KeyRange(t.smallest.key, t.largest.key)
  }

  // Where PickLevelForMemTableOutput may put the table of a memtable.
  ghost predicate FlushTo(less: KeyOrder, levels: seq<seq<Table>>, t: Table, level: nat) {
    && level <= MAX_MEM_COMPACT_LEVEL && level < |levels| && TableOk(less, t)
    && (level > 0 ==> forall j :: 0 <= j <= level ==> !SomeOverlap(less, levels[j], UserRange(t)))
  }

  // Tables of one level, and with them those of the next that overlap their range.
  ghost predicate Picked(less: KeyOrder, levels: seq<seq<Table>>, w: TableWork) {
    && w.level + 1 < |levels| && w.upper != [] && (forall t :: t in w.upper ==> t in levels[w.level])
    && w.lower == Overlapping(less, levels[w.level + 1], RangeOf(less, w.upper))
  }

  // Tables made of entries of the inputs, in order.
  ghost predicate OutputsOf(less: KeyOrder, w: TableWork, outputs: seq<Table>) {
    LevelOk(less, 1, outputs) && InTables(outputs) <= InTables(Inputs(w))
  }

  ghost predicate EditedAt(less: KeyOrder, levels: seq<seq<Table>>, level: nat, gone: seq<Table>, added: seq<Table>,
                           after: seq<seq<Table>>) {
    && level < |levels| == |after| && Edited(less, level, levels[level], gone, added, after[level])
    && forall j :: 0 <= j < |levels| && j != level ==> after[j] == levels[j]
  }

  // The inputs go, and the outputs come into the next level.
  ghost predicate Replaced(less: KeyOrder, levels: seq<seq<Table>>, w: TableWork, outputs: seq<Table>,
                           after: seq<seq<Table>>) {
    && w.level + 1 < |levels| == |after|
    && Edited(less, w.level, levels[w.level], w.upper, [], after[w.level])
    && Edited(less, w.level + 1, levels[w.level + 1], w.lower, outputs, after[w.level + 1])
    && forall j :: 0 <= j < |levels| && j != w.level && j != w.level + 1 ==> after[j] == levels[j]
  }

  ghost predicate Changes(less: KeyOrder, s: Layout, c: Change, s': Layout) {
    match c
    case FlushTable(t, level) =>
      FlushTo(less, s.levels, t, level) && s'.work == s.work && EditedAt(less, s.levels, level, [], [t], s'.levels)
    case Begin(w) =>
      s.work.None? && Picked(less, s.levels, w) && s' == s.(work := Some(w))
    case Install(outputs) =>
      && s.work.Some? && s'.work.None? && OutputsOf(less, s.work.value, outputs)
      && Replaced(less, s.levels, s.work.value, outputs, s'.levels)
    case MoveTable(level, t) =>
      && s.work.None? && s'.work.None? && Picked(less, s.levels, TableWork(level, [t], []))
      && Replaced(less, s.levels, TableWork(level, [t], []), [t], s'.levels)
    case Crash =>
      s' == s.(work := None)
  }

  // ----- What every change keeps -----

  ghost predicate InOrder(less: KeyOrder, levels: seq<seq<Table>>) {
    |levels| == NUM_LEVELS && forall j :: 0 <= j < NUM_LEVELS ==> LevelOk(less, j, levels[j])
  }

  // The table is before all of the others, or behind them all.
  ghost predicate Aside(less: KeyOrder, u: Table, ts: seq<Table>) {
    || (forall t :: t in ts ==> Precedes(less, u.largest, t.smallest))
    || (forall t :: t in ts ==> Precedes(less, t.largest, u.smallest))
  }

  // No table of levels 0 to the given one covers the key.
  ghost predicate Uncovered(less: KeyOrder, levels: seq<seq<Table>>, level: nat, k: Key)
    requires level < |levels|
  {
    forall j, t :: 0 <= j <= level && t in levels[j] ==> !CoversKey(less, t, k)
  }

  ghost predicate KeyAside(less: KeyOrder, k: Key, ts: seq<Table>) {
    || (forall t :: t in ts ==> less(k, t.smallest.key))
    || (forall t :: t in ts ==> less(t.largest.key, k))
  }

  // A key that no table covers down to the output level, with inputs on both sides.
  ghost predicate Hole(less: KeyOrder, levels: seq<seq<Table>>, w: TableWork, k: Key)
    requires w.level + 1 < |levels|
  {
    Uncovered(less, levels, w.level + 1, k) && !KeyAside(less, k, Inputs(w))
  }

  // There is no such key, or no flush goes as far down as the outputs.
  ghost predicate Snug(less: KeyOrder, levels: seq<seq<Table>>, w: TableWork)
    requires w.level + 1 < |levels|
  {
    w.level + 1 <= MAX_MEM_COMPACT_LEVEL ==> forall k :: !Hole(less, levels, w, k)
  }

  ghost predicate WorkOk(less: KeyOrder, levels: seq<seq<Table>>, w: TableWork) {
    && w.level + 1 < |levels| && w.upper != []
    && (forall t :: t in w.upper ==> t in levels[w.level]) && (forall t :: t in w.lower ==> t in levels[w.level + 1])
    && (forall u :: u in levels[w.level + 1] && u !in w.lower ==> Aside(less, u, Inputs(w)))
  }

  ghost predicate Ok(less: KeyOrder, s: Layout) {
    InOrder(less, s.levels)
    && (s.work.Some? ==> WorkOk(less, s.levels, s.work.value) && Snug(less, s.levels, s.work.value))
  }

  lemma NextInOrder(less: KeyOrder, levels: seq<seq<Table>>, j: nat)
    requires InOrder(less, levels) && j < NUM_LEVELS
    ensures LevelOk(less, 0, levels[j]) && (j > 0 ==> LevelOk(less, 1, levels[j])) && TotalOrder(less)
  {
    assert LevelOk(less, j, levels[j]);
  }

  lemma ApartInKeys(less: KeyOrder, u: Table, t: Table)
    requires TotalOrder(less) && TableOk(less, t) && TableOk(less, u) && !Overlaps(less, u, UserRange(t))
    ensures less(u.largest.key, t.smallest.key) || less(t.largest.key, u.smallest.key)
    ensures Clear(less, t, u)
  {
  }

  lemma FlushIsClear(less: KeyOrder, levels: seq<seq<Table>>, t: Table, level: nat, j: nat, u: Table)
    requires InOrder(less, levels) && FlushTo(less, levels, t, level) && j <= level && level > 0 && u in levels[j]
    ensures TotalOrder(less) && TableOk(less, u) && !Overlaps(less, u, UserRange(t)) && Clear(less, t, u)
  {
    NextInOrder(less, levels, j);
    assert !SomeOverlap(less, levels[j], UserRange(t));
    ApartInKeys(less, u, t);
  }

  lemma OneTableOk(less: KeyOrder, t: Table)
    requires TotalOrder(less) && TableOk(less, t)
    ensures LevelOk(less, 1, [t])
  {
  }

  lemma FlushAddsClear(less: KeyOrder, levels: seq<seq<Table>>, t: Table, level: nat)
    requires InOrder(less, levels) && FlushTo(less, levels, t, level) && level > 0
    ensures AddsClear(less, levels[level], [], [t])
  {
    NextInOrder(less, levels, level);
    OneTableOk(less, t);
    forall u | u in levels[level]
      ensures Clear(less, t, u)
    {
      FlushIsClear(less, levels, t, level, level, u);
    }
  }

  lemma FlushKeepsOrder(less: KeyOrder, s: Layout, t: Table, level: nat, s': Layout)
    requires InOrder(less, s.levels) && Changes(less, s, FlushTable(t, level), s')
    ensures InOrder(less, s'.levels)
  {
    NextInOrder(less, s.levels, level);
    if level > 0 {
      FlushAddsClear(less, s.levels, t, level);
      EditKeepsRun(less, level, s.levels[level], [], [t], s'.levels[level]);
    }
    forall j | 0 <= j < NUM_LEVELS
      ensures LevelOk(less, j, s'.levels[j])
    {
      assert j != level ==> LevelOk(less, j, s.levels[j]) && s'.levels[j] == s.levels[j];
    }
  }

  // ----- A flush during a compaction -----

  // No table down to the flush's level covers a key of the new table.
  lemma FlushedKeyUncovered(less: KeyOrder, levels: seq<seq<Table>>, t: Table, level: nat)
    requires InOrder(less, levels) && FlushTo(less, levels, t, level) && level > 0
    ensures Uncovered(less, levels, level, t.smallest.key)
  {
    NextInOrder(less, levels, 0);
    KeysOrdered(less, t);
    forall j, u | 0 <= j <= level && u in levels[j]
      ensures !CoversKey(less, u, t.smallest.key)
    {
      FlushIsClear(less, levels, t, level, j, u);
    }
  }

  lemma AllBefore(less: KeyOrder, t: Table, k: Key, x: Table)
    requires TotalOrder(less) && TableOk(less, t) && TableOk(less, x) && !Overlaps(less, x, UserRange(t))
    requires k == t.smallest.key
    ensures less(k, x.smallest.key) ==> Precedes(less, t.largest, x.smallest)
    ensures less(x.largest.key, k) ==> Precedes(less, x.largest, t.smallest)
  {
    KeysOrdered(less, x);
  }

  // So without a hole it goes to one side of all inputs.
  lemma FlushIsAside(less: KeyOrder, levels: seq<seq<Table>>, t: Table, w: TableWork)
    requires InOrder(less, levels) && FlushTo(less, levels, t, w.level + 1) && WorkOk(less, levels, w)
    requires Snug(less, levels, w)
    ensures Aside(less, t, Inputs(w))
  {
    var k := t.smallest.key;
    FlushedKeyUncovered(less, levels, t, w.level + 1);
    assert !Hole(less, levels, w, k);
    forall x | x in Inputs(w)
      ensures less(k, x.smallest.key) ==> Precedes(less, t.largest, x.smallest)
      ensures less(x.largest.key, k) ==> Precedes(less, x.largest, t.smallest)
    {
      FlushIsClear(less, levels, t, w.level + 1, if x in w.upper then w.level else w.level + 1, x);
      AllBefore(less, t, k, x);
    }
  }

  lemma MoreIsSnug(less: KeyOrder, levels: seq<seq<Table>>, after: seq<seq<Table>>, w: TableWork)
    requires w.level + 1 < |levels| == |after| && Snug(less, levels, w)
    requires forall j, t :: 0 <= j < |levels| && t in levels[j] ==> t in after[j]
    ensures Snug(less, after, w)
  {
    forall k | Hole(less, after, w, k)
      ensures Hole(less, levels, w, k)
    {
    }
  }

  lemma EditedKeeps(less: KeyOrder, levels: seq<seq<Table>>, level: nat, t: Table, after: seq<seq<Table>>)
    requires EditedAt(less, levels, level, [], [t], after)
    ensures forall j, u :: 0 <= j < |levels| && u in levels[j] ==> u in after[j]
    ensures forall j, u :: 0 <= j < |levels| && u in after[j] ==> u in levels[j] || (j == level && u == t)
  {
  }

  lemma FlushKeeps(less: KeyOrder, s: Layout, t: Table, level: nat, s': Layout)
    requires Ok(less, s) && Changes(less, s, FlushTable(t, level), s')
    ensures Ok(less, s')
  {
    FlushKeepsOrder(less, s, t, level, s');
    if s.work.Some? {
      var w := s.work.value;
      EditedKeeps(less, s.levels, level, t, s'.levels);
      MoreIsSnug(less, s.levels, s'.levels, w);
      hide InOrder;
      hide Edited;
      hide Snug;
      hide Aside;
      hide FlushTo;
      forall u | u in s'.levels[w.level + 1] && u !in w.lower
        ensures Aside(less, u, Inputs(w))
      {
        if u !in s.levels[w.level + 1] { FlushIsAside(less, s.levels, t, w); }
      }
    }
  }

  // ----- A compaction's beginning and end -----

  // A table of the next level outside the range of the upper inputs is on the same
  // side of the lower ones.
  lemma OthersAside(less: KeyOrder, levels: seq<seq<Table>>, w: TableWork, u: Table)
    requires InOrder(less, levels) && Picked(less, levels, w) && u in levels[w.level + 1] && u !in w.lower
    ensures Aside(less, u, Inputs(w))
  {
    var next, r := levels[w.level + 1], RangeOf(less, w.upper);
    NextInOrder(less, levels, w.level);
    NextInOrder(less, levels, w.level + 1);
    InOverlapping(less, next, r);
    hide LevelOk;
    forall t | t in Inputs(w)
      ensures Before(less, u, r) ==> Precedes(less, u.largest, t.smallest)
      ensures Behind(less, u, r) ==> Precedes(less, t.largest, u.smallest)
    {
      if t in w.upper {
        InRange(less, w.upper, t);
        UpperAside(less, u, r, t);
      } else {
        RunIsClear(less, next, t, u);
        LowerAside(less, next, u, r, t);
      }
    }
  }

  lemma UpperAside(less: KeyOrder, u: Table, r: Bounds, t: Table)
    requires TotalOrder(less) && r.begin.Some? && r.end.Some?
    requires !less(t.smallest.key, r.begin.value) && !less(r.end.value, t.largest.key)
    ensures Before(less, u, r) ==> Precedes(less, u.largest, t.smallest)
    ensures Behind(less, u, r) ==> Precedes(less, t.largest, u.smallest)
  {
  }

  lemma LowerAside(less: KeyOrder, next: seq<Table>, u: Table, r: Bounds, t: Table)
    requires LevelOk(less, 1, next) && u in next && t in next && Clear(less, t, u) && Overlaps(less, t, r)
    ensures Before(less, u, r) ==> Precedes(less, u.largest, t.smallest)
    ensures Behind(less, u, r) ==> Precedes(less, t.largest, u.smallest)
  {
    KeysOrdered(less, t);
    KeysOrdered(less, u);
  }

  lemma BeginKeeps(less: KeyOrder, s: Layout, w: TableWork, s': Layout)
    requires Ok(less, s) && Changes(less, s, Begin(w), s') && Snug(less, s.levels, w)
    ensures Ok(less, s')
  {
    InOverlapping(less, s.levels[w.level + 1], RangeOf(less, w.upper));
    forall u | u in s.levels[w.level + 1] && u !in w.lower
      ensures Aside(less, u, Inputs(w))
    {
      OthersAside(less, s.levels, w, u);
    }
  }

  lemma FewerKeepRun(less: KeyOrder, level: nat, files: seq<Table>, gone: seq<Table>, after: seq<Table>)
    requires LevelOk(less, level, files) && Edited(less, level, files, gone, [], after)
    ensures LevelOk(less, level, after)
  {
    if level > 0 {
      assert LevelOk(less, 1, files) && LevelOk(less, 1, []);
      EditKeepsRun(less, level, files, gone, [], after);
    }
  }

  // An output lies within what the inputs span.
  lemma OutputIsClear(less: KeyOrder, inputs: seq<Table>, o: Table, u: Table)
    requires TotalOrder(less) && (forall t :: t in inputs ==> TableOk(less, t)) && TableOk(less, o) && TableOk(less, u)
    requires o.smallest in InTables(inputs) && o.largest in InTables(inputs) && Aside(less, u, inputs)
    ensures Clear(less, o, u)
  {
    var t :| t in inputs && o.smallest in t.entries;
    var v :| v in inputs && o.largest in v.entries;
    assert TableOk(less, t) && TableOk(less, v);
    EntryWithin(less, t, o.smallest);
    EntryWithin(less, v, o.largest);
  }

  lemma EntryWithin(less: KeyOrder, t: Table, e: Entry)
    requires TotalOrder(less) && TableOk(less, t) && e in t.entries
    ensures e == t.smallest || Precedes(less, t.smallest, e)
    ensures e == t.largest || Precedes(less, e, t.largest)
  {
  }

  lemma InputsOk(less: KeyOrder, levels: seq<seq<Table>>, w: TableWork)
    requires InOrder(less, levels) && WorkOk(less, levels, w)
    ensures TotalOrder(less) && forall t :: t in Inputs(w) ==> TableOk(less, t)
  {
    NextInOrder(less, levels, w.level);
    NextInOrder(less, levels, w.level + 1);
  }

  // The outputs are clear of what stays in their level.
  lemma OutputsAddClear(less: KeyOrder, levels: seq<seq<Table>>, w: TableWork, outputs: seq<Table>)
    requires InOrder(less, levels) && WorkOk(less, levels, w) && OutputsOf(less, w, outputs)
    ensures AddsClear(less, levels[w.level + 1], w.lower, outputs)
  {
    InputsOk(less, levels, w);
    NextInOrder(less, levels, w.level + 1);
    var next := levels[w.level + 1];
    forall o, u | o in outputs && u in next && u !in w.lower
      ensures Clear(less, o, u)
    {
      assert o.smallest in o.entries && o.largest in o.entries;
      assert o.smallest in InTables(outputs) && o.largest in InTables(outputs);
      OutputIsClear(less, Inputs(w), o, u);
    }
  }

  lemma ReplacedKeepsOrder(less: KeyOrder, levels: seq<seq<Table>>, w: TableWork, outputs: seq<Table>,
                           after: seq<seq<Table>>)
    requires InOrder(less, levels) && WorkOk(less, levels, w) && OutputsOf(less, w, outputs)
    requires Replaced(less, levels, w, outputs, after)
    ensures InOrder(less, after)
  {
    assert LevelOk(less, w.level, levels[w.level]);
    FewerKeepRun(less, w.level, levels[w.level], w.upper, after[w.level]);
    OutputsAddClear(less, levels, w, outputs);
    EditKeepsRun(less, w.level + 1, levels[w.level + 1], w.lower, outputs, after[w.level + 1]);
    hide Edited;
    hide InTables;
    forall j | 0 <= j < NUM_LEVELS
      ensures LevelOk(less, j, after[j])
    {
      assert LevelOk(less, j, levels[j]);
    }
  }

  lemma MoveKeeps(less: KeyOrder, s: Layout, level: nat, t: Table, s': Layout)
    requires Ok(less, s) && Changes(less, s, MoveTable(level, t), s')
    ensures Ok(less, s')
  {
    var w := TableWork(level, [t], []);
    forall u | u in s.levels[level + 1] && u !in w.lower
      ensures Aside(less, u, Inputs(w))
    {
      OthersAside(less, s.levels, w, u);
    }
    NextInOrder(less, s.levels, level);
    OneTableOk(less, t);
    assert Inputs(w) == [t];
    ReplacedKeepsOrder(less, s.levels, w, [t], s'.levels);
  }

  // ----- Whole runs -----

  ghost predicate SnugChange(less: KeyOrder, s: Layout, c: Change) {
    c.Begin? && c.work.level + 1 < |s.levels| ==> Snug(less, s.levels, c.work)
  }

  lemma ChangeKeeps(less: KeyOrder, s: Layout, c: Change, s': Layout)
    requires Ok(less, s) && Changes(less, s, c, s') && SnugChange(less, s, c)
    ensures Ok(less, s')
  {
    hide InOrder;
    hide WorkOk;
    hide Snug;
    hide FlushTo;
    hide OutputsOf;
    hide Replaced;
    hide EditedAt;
    match c
    case FlushTable(t, level) => FlushKeeps(less, s, t, level, s');
    case Begin(w) => BeginKeeps(less, s, w, s');
    case Install(outputs) => ReplacedKeepsOrder(less, s.levels, s.work.value, outputs, s'.levels);
    case MoveTable(level, t) => MoveKeeps(less, s, level, t, s');
    case Crash =>
  }

  ghost predicate LeadsTo(less: KeyOrder, s: Layout, changes: seq<Change>, s': Layout)
    decreases |changes|
  {
    if changes == [] then s' == s
    else exists m :: Changes(less, s, changes[0], m) && LeadsTo(less, m, changes[1..], s')
  }

  // Every compaction of the run is snug when it begins.
  ghost predicate LeadsSnuglyTo(less: KeyOrder, s: Layout, changes: seq<Change>, s': Layout)
    decreases |changes|
  {
    if changes == [] then s' == s
    else exists m :: Changes(less, s, changes[0], m) && SnugChange(less, s, changes[0])
                     && LeadsSnuglyTo(less, m, changes[1..], s')
  }

  // Then the levels are in order at its end.
  lemma {:induction false} RunKeepsOrder(less: KeyOrder, s: Layout, changes: seq<Change>, s': Layout)
    requires Ok(less, s) && LeadsSnuglyTo(less, s, changes, s')
    ensures Ok(less, s')
    decreases |changes|
  {
    if changes != [] {
      var m :| Changes(less, s, changes[0], m) && SnugChange(less, s, changes[0])
               && LeadsSnuglyTo(less, m, changes[1..], s');
      hide Changes;
      ChangeKeeps(less, s, changes[0], m);
      RunKeepsOrder(less, m, changes[1..], s');
    }
  }

  // ----- What is picked leaves no hole -----

  lemma {:induction false} SmallestIsOne(less: KeyOrder, ts: seq<Table>) returns (t: Table)
    requires ts != []
    ensures t in ts && VersionSets.Smallest(less, ts) == t.smallest
  {
    var n := |ts| - 1;
    if n == 0 {
      t := ts[0];
    } else {
      t := SmallestIsOne(less, ts[..n]);
      if Precedes(less, ts[n].smallest, t.smallest) { t := ts[n]; }
    }
  }

  lemma {:induction false} LargestIsOne(less: KeyOrder, ts: seq<Table>) returns (t: Table)
    requires ts != []
    ensures t in ts && Largest(less, ts) == t.largest
  {
    var n := |ts| - 1;
    if n == 0 {
      t := ts[0];
    } else {
      t := LargestIsOne(less, ts[..n]);
      if Precedes(less, t.largest, ts[n].largest) { t := ts[n]; }
    }
  }

  // The range of tables on one side of a key is on that side of it.
  lemma RangeAside(less: KeyOrder, ts: seq<Table>, k: Key)
    requires ts != []
    ensures (forall t :: t in ts ==> less(k, t.smallest.key)) ==> less(k, RangeOf(less, ts).begin.value)
    ensures (forall t :: t in ts ==> less(t.largest.key, k)) ==> less(RangeOf(less, ts).end.value, k)
  {
    var s := SmallestIsOne(less, ts);
    var l := LargestIsOne(less, ts);
  }

  function BehindKey(less: KeyOrder, ts: seq<Table>, k: Key): (behind: seq<Table>)
    ensures forall t :: t in behind <==> t in ts && less(k, t.smallest.key)
  {
    if ts == [] then [] else (if less(k, ts[0].smallest.key) then [ts[0]] else []) + BehindKey(less, ts[1..], k)
  }

  function BeforeKey(less: KeyOrder, ts: seq<Table>, k: Key): (before: seq<Table>)
    ensures forall t :: t in before <==> t in ts && less(t.largest.key, k)
  {
    if ts == [] then [] else (if less(ts[0].largest.key, k) then [ts[0]] else []) + BeforeKey(less, ts[1..], k)
  }

  // The least closed range around a range behind k does not reach over k.
  lemma ClosureStaysBehind(less: KeyOrder, files: seq<Table>, r: Bounds, c: Bounds, k: Key)
    requires LevelOk(less, 0, files) && ClosureOf(less, files, r, c) && r.begin.Some? && less(k, r.begin.value)
    requires forall t :: t in files && Overlaps(less, t, c) ==> !CoversKey(less, t, k)
    ensures c.begin.Some? && less(k, c.begin.value)
  {
    var inputs := Overlapping(less, files, c);
    InOverlapping(less, files, c);
    var behind := BehindKey(less, inputs, k);
    var begin := r.begin.value;
    if behind != [] {
      var s := SmallestIsOne(less, behind);
      if less(s.smallest.key, begin) { begin := s.smallest.key; }
      forall t | t in behind
        ensures !less(t.smallest.key, begin)
      {
        InRange(less, behind, t);
      }
    }
    var d := c.(begin := Some(begin));
    assert Within(less, d, c);
    forall t | t in files && Overlaps(less, t, d)
      ensures !EarlyStart(less, t, d) && !LateEnd(less, t, d)
    {
      SameOverlap(less, t, d, c);
      assert t in inputs;
      KeysOrdered(less, t);
    }
    assert Within(less, r, d) && Closed(less, files, d);
  }

  lemma ClosureStaysBefore(less: KeyOrder, files: seq<Table>, r: Bounds, c: Bounds, k: Key)
    requires LevelOk(less, 0, files) && ClosureOf(less, files, r, c) && r.end.Some? && less(r.end.value, k)
    requires forall t :: t in files && Overlaps(less, t, c) ==> !CoversKey(less, t, k)
    ensures c.end.Some? && less(c.end.value, k)
  {
    var inputs := Overlapping(less, files, c);
    InOverlapping(less, files, c);
    var before := BeforeKey(less, inputs, k);
    var end := r.end.value;
    if before != [] {
      var l := LargestIsOne(less, before);
      if less(end, l.largest.key) { end := l.largest.key; }
      forall t | t in before
        ensures !less(end, t.largest.key)
      {
        InRange(less, before, t);
      }
    }
    var d := c.(end := Some(end));
    assert Within(less, d, c);
    forall t | t in files && Overlaps(less, t, d)
      ensures !EarlyStart(less, t, d) && !LateEnd(less, t, d)
    {
      SameOverlap(less, t, d, c);
      assert t in inputs;
      KeysOrdered(less, t);
    }
    assert Within(less, r, d) && Closed(less, files, d);
  }

  // What a search finds from a range on one side of an uncovered key is on that side.
  lemma FoundAside(less: KeyOrder, level: nat, files: seq<Table>, r: Bounds, inputs: seq<Table>, c: Bounds, k: Key)
    requires LevelOk(less, level, files) && Found(less, level, files, r, inputs, c) && r.begin.Some? && r.end.Some?
    requires forall t :: t in files ==> !CoversKey(less, t, k)
    ensures less(k, r.begin.value) ==> forall t :: t in inputs ==> less(k, t.smallest.key)
    ensures less(r.end.value, k) ==> forall t :: t in inputs ==> less(t.largest.key, k)
  {
    InOverlapping(less, files, c);
    if level == 0 {
      if less(k, r.begin.value) { ClosureStaysBehind(less, files, r, c, k); }
      if less(r.end.value, k) { ClosureStaysBefore(less, files, r, c, k); }
    }
    forall t | t in inputs
      ensures less(k, r.begin.value) ==> less(k, t.smallest.key)
      ensures less(r.end.value, k) ==> less(t.largest.key, k)
    {
      KeysOrdered(less, t);
    }
  }

  // What PickCompaction and SetupOtherInputs arrive at.
  ghost predicate AutoPicked(less: KeyOrder, levels: seq<seq<Table>>, w: TableWork) {
    && Picked(less, levels, w)
    && exists i: nat, first: seq<Table> :: TakenAndExpanded(less, levels, w, i, first)
  }

  ghost predicate TakenAndExpanded(less: KeyOrder, levels: seq<seq<Table>>, w: TableWork, i: nat, first: seq<Table>) {
    && w.level + 1 < |levels| && first != [] && FirstTaken(less, w.level, levels[w.level], i, first)
    && Expanded(less, w.level, levels[w.level], levels[w.level + 1], first, w.upper)
  }

  lemma FirstAside(less: KeyOrder, level: nat, files: seq<Table>, i: nat, first: seq<Table>, k: Key)
    requires LevelOk(less, level, files) && FirstTaken(less, level, files, i, first)
    requires forall t :: t in files ==> !CoversKey(less, t, k)
    ensures KeyAside(less, k, first)
  {
    var f := files[i];
    assert f in files;
    RangeAside(less, [f], k);
    if level == 0 {
      var r := RangeOf(less, [f]);
      var c :| Found(less, 0, files, r, first, c);
      FoundAside(less, 0, files, r, first, c, k);
    }
  }

  // One round: the tables of a level that overlap the range of tables aside.
  lemma OverlappingAside(less: KeyOrder, next: seq<Table>, upper: seq<Table>, k: Key)
    requires LevelOk(less, 1, next) && upper != [] && KeyAside(less, k, upper)
    requires forall t :: t in next ==> !CoversKey(less, t, k)
    ensures KeyAside(less, k, upper + Overlapping(less, next, RangeOf(less, upper)))
  {
    var r := RangeOf(less, upper);
    RangeAside(less, upper, k);
    FoundAside(less, 1, next, r, Overlapping(less, next, r), r, k);
  }

  lemma ExpandedAside(less: KeyOrder, level: nat, files: seq<Table>, next: seq<Table>, first: seq<Table>,
                      upper: seq<Table>, k: Key)
    requires LevelOk(less, level, files) && LevelOk(less, 1, next) && first != [] && KeyAside(less, k, first)
    requires Expanded(less, level, files, next, first, upper)
    requires forall t :: t in files || t in next ==> !CoversKey(less, t, k)
    ensures KeyAside(less, k, upper)
  {
    if upper != first {
      var all := first + Overlapping(less, next, RangeOf(less, first));
      var c :| Found(less, level, files, RangeOf(less, all), upper, c);
      OverlappingAside(less, next, first, k);
      RangeAside(less, all, k);
      FoundAside(less, level, files, RangeOf(less, all), upper, c, k);
    }
  }

  // Whatever it expands to, a compaction picked by the version set is snug.
  lemma AutoPickedIsSnug(less: KeyOrder, levels: seq<seq<Table>>, w: TableWork)
    requires InOrder(less, levels) && AutoPicked(less, levels, w)
    ensures forall k :: !Hole(less, levels, w, k)
    ensures Snug(less, levels, w)
  {
    var i: nat, first: seq<Table> :| TakenAndExpanded(less, levels, w, i, first);
    var files, next := levels[w.level], levels[w.level + 1];
    assert LevelOk(less, w.level, files);
    NextInOrder(less, levels, w.level + 1);
    forall k | Uncovered(less, levels, w.level + 1, k)
      ensures KeyAside(less, k, Inputs(w))
    {
      assert forall t :: t in files || t in next ==> !CoversKey(less, t, k);
      hide *;
      FirstAside(less, w.level, files, i, first, k);
      ExpandedAside(less, w.level, files, next, first, w.upper, k);
      OverlappingAside(less, next, w.upper, k);
    }
  }

  // PickCompaction as a whole, for a level that holds too much.
  method PickWork(less: KeyOrder, levels: seq<seq<Table>>, level: nat, pointer: Option<Entry>, limit: nat)
    returns (w: TableWork)
    requires InOrder(less, levels) && level + 1 < NUM_LEVELS && levels[level] != []
    ensures w.level == level && AutoPicked(less, levels, w) && Snug(less, levels, w)
  {
    assert LevelOk(less, level, levels[level]) && LevelOk(less, level + 1, levels[level + 1]);
    hide LevelOk;
    hide Whole;
    hide FirstTaken;
    hide Expanded;
    ghost var i;
    var first, upper, lower;
    first, i := PickCompaction(less, level, levels[level], pointer);
    upper, lower := SetupOtherInputs(less, level, levels[level], levels[level + 1], first, limit);
    w := TableWork(level, upper, lower);
    InputsAreTables(less, level, levels[level], upper);
    assert TakenAndExpanded(less, levels, w, i, first);
    AutoPickedIsSnug(less, levels, w);
  }

  // ----- What a hole leads to -----

  function Insert(less: KeyOrder, files: seq<Table>, t: Table): (after: seq<Table>)
    ensures forall u :: u in after <==> u == t || u in files
  {
    if files == [] || Precedes(less, t.smallest, files[0].smallest) then [t] + files
    else [files[0]] + Insert(less, files[1..], t)
  }

  lemma {:induction false} InsertInOrder(less: KeyOrder, files: seq<Table>, t: Table)
    requires TotalOrder(less) && BySmallest(less, files) && NoneTwice(files) && t !in files
    ensures BySmallest(less, Insert(less, files, t)) && NoneTwice(Insert(less, files, t))
  {
    if files != [] && !Precedes(less, t.smallest, files[0].smallest) {
      InsertInOrder(less, files[1..], t);
      PutBefore(less, files[0], Insert(less, files[1..], t));
    } else if files != [] {
      PutBefore(less, t, files);
    }
  }

  lemma PutBefore(less: KeyOrder, t: Table, files: seq<Table>)
    requires BySmallest(less, files) && NoneTwice(files)
    requires forall u :: u in files ==> u != t && !Precedes(less, u.smallest, t.smallest)
    ensures BySmallest(less, [t] + files) && NoneTwice([t] + files)
  {
  }

  lemma {:induction false} WithoutInOrder(less: KeyOrder, files: seq<Table>, gone: seq<Table>)
    requires BySmallest(less, files) && NoneTwice(files)
    ensures BySmallest(less, Without(files, gone)) && NoneTwice(Without(files, gone))
  {
    if files != [] {
      WithoutInOrder(less, files[1..], gone);
      assert forall u :: u in files[1..] ==> exists i :: 0 < i < |files| && files[i] == u;
      if files[0] !in gone { PutBefore(less, files[0], Without(files[1..], gone)); }
    }
  }

  lemma RunInOrder(less: KeyOrder, files: seq<Table>)
    requires LevelOk(less, 1, files)
    ensures BySmallest(less, files) && NoneTwice(files)
  {
    forall i, j | 0 <= i < j < |files|
      ensures !Precedes(less, files[j].smallest, files[i].smallest) && files[i] != files[j]
    {
      EndsInOrder(less, files[i]);
      EndsInOrder(less, files[j]);
      assert Precedes(less, files[i].largest, files[j].smallest);
    }
  }

  // Any edit that adds at most one table can be made.
  lemma EditExists(less: KeyOrder, level: nat, files: seq<Table>, gone: seq<Table>, added: seq<Table>)
    returns (after: seq<Table>)
    requires LevelOk(less, level, files) && |added| <= 1
    ensures Edited(less, level, files, gone, added, after)
  {
    var rest := Without(files, gone);
    if level == 0 {
      after := added + rest;
    } else {
      RunInOrder(less, files);
      WithoutInOrder(less, files, gone);
      if added == [] || added[0] in rest {
        after := rest;
      } else {
        after := Insert(less, rest, added[0]);
        InsertInOrder(less, rest, added[0]);
      }
    }
  }

  // Entries in order, one table for all.
  lemma {:induction false} Arrange(less: KeyOrder, es: set<Entry>) returns (s: seq<Entry>)
    requires TotalOrder(less) && Distinct(es)
    ensures Sorted(less, s) && forall e :: e in s <==> e in es
  {
    if es == {} {
      s := [];
    } else {
      var e :| e in es;
      var rest := Arrange(less, es - {e});
      s := Slotted(less, rest, e);
    }
  }

  lemma Slotted(less: KeyOrder, rest: seq<Entry>, e: Entry) returns (s: seq<Entry>)
    requires TotalOrder(less) && Sorted(less, rest) && forall f :: f in rest ==> f.key != e.key || f.seqno != e.seqno
    ensures Sorted(less, s) && forall f :: f in s <==> f in rest || f == e
  {
    var p := Mergers.LowerBound(less, rest, e);
    s := rest[..p] + [e] + rest[p..];
    hide Precedes;
    hide TotalOrder;
    forall j | p <= j < |rest|
      ensures Precedes(less, e, rest[j])
    {
      assert rest[p] in rest;
      Mergers.Dichotomy(less, e, rest[p]);
      if p < j { Mergers.Transitive(less, e, rest[p], rest[j]); }
    }
    SlottedInOrder(less, rest, p, e);
    SlottedHolds(rest, p, e);
  }

  lemma SlottedInOrder(less: KeyOrder, rest: seq<Entry>, p: nat, e: Entry)
    requires p <= |rest| && Sorted(less, rest)
    requires forall j :: 0 <= j < p ==> Precedes(less, rest[j], e)
    requires forall j :: p <= j < |rest| ==> Precedes(less, e, rest[j])
    ensures Sorted(less, rest[..p] + [e] + rest[p..])
  {
    hide Precedes;
    var s := rest[..p] + [e] + rest[p..];
    forall i, j | 0 <= i < j < |s|
      ensures Precedes(less, s[i], s[j])
    {
      assert s[i] == if i < p then rest[i] else if i == p then e else rest[i - 1];
      assert s[j] == if j < p then rest[j] else if j == p then e else rest[j - 1];
    }
  }

  lemma SlottedHolds(rest: seq<Entry>, p: nat, e: Entry)
    requires p <= |rest|
    ensures forall f :: f in rest[..p] + [e] + rest[p..] <==> f in rest || f == e
  {
    assert rest == rest[..p] + rest[p..];
  }

  // ----- Holes -----

  function OneEntry(e: Entry): Table {
    Table(e, e, 0, [e])
  }

  lemma HoleTakesFlush(less: KeyOrder, levels: seq<seq<Table>>, w: TableWork, k: Key)
    requires InOrder(less, levels) && w.level + 1 <= MAX_MEM_COMPACT_LEVEL && Hole(less, levels, w, k)
    ensures FlushTo(less, levels, OneEntry(Entry(k, 0, Put, [])), w.level + 1)
    ensures OneEntry(Entry(k, 0, Put, [])) !in levels[w.level + 1]
  {
    var t := OneEntry(Entry(k, 0, Put, []));
    NextInOrder(less, levels, 0);
    forall j, u | 0 <= j <= w.level + 1 && u in levels[j]
      ensures !Overlaps(less, u, UserRange(t)) && u != t
    {
      assert !CoversKey(less, u, k);
    }
  }

  // All inputs merged into one table.
  lemma OneOutput(less: KeyOrder, levels: seq<seq<Table>>, w: TableWork) returns (o: Table)
    requires InOrder(less, levels) && WorkOk(less, levels, w) && Distinct(InTables(Inputs(w)))
    ensures TableOk(less, o) && OutputsOf(less, w, [o]) && InTables([o]) == InTables(Inputs(w))
  {
    InputsOk(less, levels, w);
    var all := InTables(Inputs(w));
    var es := Arrange(less, all);
    assert w.upper[0] in Inputs(w) && TableOk(less, w.upper[0]);
    assert w.upper[0].smallest in w.upper[0].entries && w.upper[0].smallest in all;
    o := Table(es[0], es[|es| - 1], 0, es);
    OneTableOk(less, o);
  }

  lemma OutputSpansHole(less: KeyOrder, levels: seq<seq<Table>>, w: TableWork, k: Key, o: Table)
    requires InOrder(less, levels) && WorkOk(less, levels, w) && Hole(less, levels, w, k)
    requires TableOk(less, o) && InTables([o]) == InTables(Inputs(w))
    ensures less(o.smallest.key, k) && less(k, o.largest.key)
  {
    InputsOk(less, levels, w);
    KeysOrdered(less, o);
    forall t | t in Inputs(w)
      ensures !CoversKey(less, t, k) && t.smallest in o.entries && t.largest in o.entries
    {
      assert t.smallest in t.entries && t.largest in t.entries;
      assert t.smallest in InTables(Inputs(w)) && t.largest in InTables(Inputs(w));
    }
    var x :| x in Inputs(w) && !less(k, x.smallest.key);
    var y :| y in Inputs(w) && !less(y.largest.key, k);
  }

  lemma CanFlush(less: KeyOrder, s: Layout, t: Table, n: nat) returns (s': Layout)
    requires InOrder(less, s.levels) && FlushTo(less, s.levels, t, n)
    ensures Changes(less, s, FlushTable(t, n), s') && InOrder(less, s'.levels) && t in s'.levels[n]
    ensures s'.work == s.work
  {
    assert LevelOk(less, n, s.levels[n]);
    var after := EditExists(less, n, s.levels[n], [], [t]);
    s' := s.(levels := s.levels[n := after]);
    FlushKeepsOrder(less, s, t, n, s');
  }

  lemma CanInstall(less: KeyOrder, s: Layout, w: TableWork, o: Table) returns (s': Layout)
    requires InOrder(less, s.levels) && s.work == Some(w) && w.level + 1 < |s.levels| && OutputsOf(less, w, [o])
    ensures Changes(less, s, Install([o]), s') && |s'.levels| == NUM_LEVELS && o in s'.levels[w.level + 1]
    ensures forall t :: t in s.levels[w.level + 1] && t !in w.lower ==> t in s'.levels[w.level + 1]
  {
    var n := w.level + 1;
    assert LevelOk(less, w.level, s.levels[w.level]) && LevelOk(less, n, s.levels[n]);
    var upper := EditExists(less, w.level, s.levels[w.level], w.upper, []);
    var lower := EditExists(less, n, s.levels[n], w.lower, [o]);
    s' := Layout(s.levels[w.level := upper][n := lower], None);
  }

  // A flush into the hole and outputs across it overlap.
  lemma HoleBreaks(less: KeyOrder, s: Layout, w: TableWork, k: Key) returns (t: Table, o: Table, s': Layout)
    requires Ok(less, s) && s.work.None? && Picked(less, s.levels, w) && Distinct(InTables(Inputs(w)))
    requires w.level + 1 <= MAX_MEM_COMPACT_LEVEL && Hole(less, s.levels, w, k)
    ensures LeadsTo(less, s, [Begin(w), FlushTable(t, w.level + 1), Install([o])], s') && !InOrder(less, s'.levels)
  {
    t := OneEntry(Entry(k, 0, Put, []));
    HoleTakesFlush(less, s.levels, w, k);
    PickedIsWork(less, s.levels, w);
    o := OneOutput(less, s.levels, w);
    OutputSpansHole(less, s.levels, w, k, o);
    var begun := s.(work := Some(w));
    assert t !in w.lower;
    hide InOrder;
    hide FlushTo;
    hide OutputsOf;
    hide Hole;
    hide Picked;
    var mid := CanFlush(less, begun, t, w.level + 1);
    s' := CanInstall(less, mid, w, o);
    Overlapped(less, s'.levels, w.level + 1, t, o);
    hide Changes;
    assert Changes(less, s, Begin(w), begun);
    ThreeChanges(less, s, Begin(w), begun, FlushTable(t, w.level + 1), mid, Install([o]), s');
  }

  lemma Overlapped(less: KeyOrder, levels: seq<seq<Table>>, n: nat, t: Table, o: Table)
    requires TotalOrder(less) && 0 < n < |levels| && t in levels[n] && o in levels[n]
    requires less(o.smallest.key, t.smallest.key) && less(t.largest.key, o.largest.key)
    ensures !InOrder(less, levels)
  {
    if InOrder(less, levels) {
      NextInOrder(less, levels, n);
      RunIsClear(less, levels[n], t, o);
      KeysOrdered(less, t);
      KeysOrdered(less, o);
    }
  }

  lemma PickedIsWork(less: KeyOrder, levels: seq<seq<Table>>, w: TableWork)
    requires InOrder(less, levels) && Picked(less, levels, w)
    ensures WorkOk(less, levels, w)
  {
    InOverlapping(less, levels[w.level + 1], RangeOf(less, w.upper));
    forall u | u in levels[w.level + 1] && u !in w.lower
      ensures Aside(less, u, Inputs(w))
    {
      OthersAside(less, levels, w, u);
    }
  }

  lemma ThreeChanges(less: KeyOrder, s: Layout, a: Change, s1: Layout, b: Change, s2: Layout, c: Change, s3: Layout)
    requires Changes(less, s, a, s1) && Changes(less, s1, b, s2) && Changes(less, s2, c, s3)
    ensures LeadsTo(less, s, [a, b, c], s3)
  {
    hide Changes;
    assert LeadsTo(less, s3, [], s3);
    assert [c][1..] == [] && [b, c][1..] == [c] && [a, b, c][1..] == [b, c];
    assert LeadsTo(less, s2, [c], s3);
    assert LeadsTo(less, s1, [b, c], s3);
  }

  // A compaction from its beginning to its end, with flushes in between.
  ghost predicate CompactionRun(changes: seq<Change>, w: TableWork) {
    && |changes| >= 2 && changes[0] == Begin(w) && changes[|changes| - 1].Install?
    && forall i :: 0 < i < |changes| - 1 ==> changes[i].FlushTable?
  }

  lemma {:induction false} NoBeginIsSnug(less: KeyOrder, s: Layout, changes: seq<Change>, s': Layout)
    requires LeadsTo(less, s, changes, s') && forall i :: 0 <= i < |changes| ==> !changes[i].Begin?
    ensures LeadsSnuglyTo(less, s, changes, s')
    decreases |changes|
  {
    hide Changes;
    if changes != [] {
      var m :| Changes(less, s, changes[0], m) && LeadsTo(less, m, changes[1..], s');
      NoBeginIsSnug(less, m, changes[1..], s');
    }
  }

  // Whether the levels stay in order, whatever is flushed meanwhile and however the
  // outputs turn out, is told by the tables at hand when the compaction begins.
  lemma StaysInOrderIff(less: KeyOrder, s: Layout, w: TableWork)
    requires Ok(less, s) && s.work.None? && Picked(less, s.levels, w) && Distinct(InTables(Inputs(w)))
    ensures Snug(less, s.levels, w)
       <==> forall changes, s' :: CompactionRun(changes, w) && LeadsTo(less, s, changes, s')
              ==> InOrder(less, s'.levels)
  {
    if Snug(less, s.levels, w) {
      forall changes, s' | CompactionRun(changes, w) && LeadsTo(less, s, changes, s')
        ensures InOrder(less, s'.levels)
      {
        SnugRunInOrder(less, s, w, changes, s');
      }
    } else {
      var k :| Hole(less, s.levels, w, k);
      var t, o, s' := HoleBreaks(less, s, w, k);
      assert CompactionRun([Begin(w), FlushTable(t, w.level + 1), Install([o])], w);
    }
  }

  lemma SnugRunInOrder(less: KeyOrder, s: Layout, w: TableWork, changes: seq<Change>, s': Layout)
    requires Ok(less, s) && w.level + 1 < |s.levels| && Snug(less, s.levels, w)
    requires CompactionRun(changes, w) && LeadsTo(less, s, changes, s')
    ensures InOrder(less, s'.levels)
  {
    hide Snug;
    hide InOrder;
    var m :| Changes(less, s, changes[0], m) && LeadsTo(less, m, changes[1..], s');
    hide Changes;
    NoBeginIsSnug(less, m, changes[1..], s');
    assert SnugChange(less, s, changes[0]);
    assert LeadsSnuglyTo(less, s, changes, s');
    RunKeepsOrder(less, s, changes, s');
  }

  // ----- The store's levels -----

  // No entry is in two of the tables.
  ghost predicate SharingNothing(files: seq<Table>) {
    forall t, u, e :: t in files && u in files && e in t.entries && e in u.entries ==> t == u
  }

  lemma RunSharesNothing(less: KeyOrder, files: seq<Table>)
    requires LevelOk(less, 1, files)
    ensures SharingNothing(files)
  {
    forall t, u, e | t in files && u in files && e in t.entries && e in u.entries
      ensures t == u
    {
      var i :| 0 <= i < |files| && files[i] == t;
      var j :| 0 <= j < |files| && files[j] == u;
      OneEntryOneTable(less, files, i, j, e);
    }
  }

  // An edit of tables is that edit of their entries.
  lemma EditOfEntries(less: KeyOrder, level: nat, files: seq<Table>, gone: seq<Table>, added: seq<Table>,
                      after: seq<Table>)
    requires Edited(less, level, files, gone, added, after) && SharingNothing(files)
    requires forall t :: t in gone ==> t in files
    ensures InTables(after) == InTables(files) - InTables(gone) + InTables(added)
  {
    assert forall t :: t in after <==> t in added || (t in files && t !in gone);
    hide Edited;
    forall e
      ensures e in InTables(after) <==> e in InTables(files) - InTables(gone) + InTables(added)
    {
      if e in InTables(after) {
        var t :| t in after && e in t.entries;
      }
      if e in InTables(files) - InTables(gone) {
        var t :| t in files && e in t.entries;
        assert t in after;
      }
      if e in InTables(added) {
        var t :| t in added && e in t.entries;
        assert t in after;
      }
    }
  }

  lemma LevelSharesNothing(less: KeyOrder, levels: seq<seq<Table>>, j: nat)
    requires InOrder(less, levels) && j < |levels| && SharingNothing(levels[0])
    ensures SharingNothing(levels[j])
  {
    NextInOrder(less, levels, j);
    if j > 0 { RunSharesNothing(less, levels[j]); }
  }

  // To the entries a flush is the store's flush, and an installation or a move its
  // installation.
  lemma FlushOfEntries(less: KeyOrder, s: Layout, t: Table, level: nat, s': Layout)
    requires InOrder(less, s.levels) && SharingNothing(s.levels[0]) && Changes(less, s, FlushTable(t, level), s')
    ensures Contents(s'.levels) == Contents(s.levels)[level := Contents(s.levels)[level] + Range(t.entries)]
  {
    hide InOrder;
    hide Edited;
    hide FlushTo;
    hide SharingNothing;
    LevelSharesNothing(less, s.levels, level);
    EditOfEntries(less, level, s.levels[level], [], [t], s'.levels[level]);
    InOneTable(t);
    hide InTables;
    assert InTables(s.levels[level]) - {} == InTables(s.levels[level]);
    assert forall j :: 0 <= j < |s.levels| && j != level ==> InTables(s'.levels[j]) == InTables(s.levels[j]);
  }

  lemma InOneTable(t: Table)
    ensures InTables([t]) == Range(t.entries) && InTables([]) == {}
  {
  }

  lemma ReplacedEntries(less: KeyOrder, levels: seq<seq<Table>>, w: TableWork, outputs: seq<Table>,
                        after: seq<seq<Table>>, smallest: nat, base: set<Key>)
    requires InOrder(less, levels) && SharingNothing(levels[0]) && WorkOk(less, levels, w)
    requires Replaced(less, levels, w, outputs, after)
    ensures Contents(after)
         == Installed(Contents(levels), Work(w.level, InTables(w.upper), InTables(w.lower), smallest, base),
                      InTables(outputs))
  {
    hide InOrder;
    hide Edited;
    hide Aside;
    hide SharingNothing;
    LevelSharesNothing(less, levels, w.level);
    LevelSharesNothing(less, levels, w.level + 1);
    EditOfEntries(less, w.level, levels[w.level], w.upper, [], after[w.level]);
    EditOfEntries(less, w.level + 1, levels[w.level + 1], w.lower, outputs, after[w.level + 1]);
    InOneTable(w.upper[0]);
    hide InTables;
    var upper := InTables(levels[w.level]) - InTables(w.upper);
    assert upper + {} == upper;
    assert forall j :: 0 <= j < |levels| && j != w.level && j != w.level + 1
             ==> InTables(after[j]) == InTables(levels[j]);
  }

  // So after every change there are tables again for what the store's levels hold.
  lemma TablesAreAgain(less: KeyOrder, s: Layout, c: Change, s': Layout, levels: seq<set<Entry>>,
                       level0: seq<set<Entry>>)
    requires Ok(less, s) && TablesAre(less, s.levels, levels, level0)
    requires Changes(less, s, c, s') && SnugChange(less, s, c)
    ensures TablesAre(less, s'.levels, Contents(s'.levels), FileLayers(s'.levels[0]))
  {
    ChangeKeeps(less, s, c, s');
    hide Changes;
    forall i | 0 <= i < |s'.levels[0]|
      ensures InTables([s'.levels[0][i]]) == FileLayers(s'.levels[0])[i]
    {
    }
  }

  lemma NoKeyShared(less: KeyOrder, tables: seq<seq<Table>>, meta: Table, j: nat)
    requires InOrder(less, tables) && TableOk(less, meta) && j < NUM_LEVELS
    requires !SomeOverlap(less, tables[j], UserRange(meta))
    ensures forall e, f :: e in InTables(tables[j]) && f in meta.entries ==> e.key != f.key
  {
    NextInOrder(less, tables, j);
    forall e, f | e in InTables(tables[j]) && f in meta.entries
      ensures e.key != f.key
    {
      var t :| t in tables[j] && e in t.entries;
      assert !Overlaps(less, t, UserRange(meta));
      KeysOrdered(less, t);
      KeysOrdered(less, meta);
    }
  }

  // CompactMemTable, with the level picked by the tables' own ranges.
  method CompactMemTable(d: DBImpl, less: KeyOrder, tables: seq<seq<Table>>, meta: Table, limit: nat)
    returns (level: nat)
    requires d.Valid() && d.imm.Some? && d.lastSequence <= MAX_SEQUENCE
    requires TablesAre(less, tables, d.Levels(), d.level0) && TableOk(less, meta) && Range(meta.entries) == d.imm.value
    modifies d
    ensures d.Valid() && Steps(old(d.AsState()), Action.Flush(level), d.AsState())
    ensures FlushTo(less, tables, meta, level)
  {
    hide DBImpl.Valid;
    hide Steps;
    hide Enabled;
    hide LevelOk;
    hide TableOk;
    d.InvHolds();
    d.Shape();
    ghost var s := d.AsState();
    LargestBounded(less, tables, s, d.level0);
    level := PickLevelForMemTableOutput(less, tables, meta.smallest.key, meta.largest.key, limit);
    CanFlushTo(less, tables, s, d.level0, meta, level);
    d.InstallTable(level);
  }

  lemma LargestBounded(less: KeyOrder, tables: seq<seq<Table>>, s: State, level0: seq<set<Entry>>)
    requires Inv(s) && s.lastSequence <= MAX_SEQUENCE && TablesAre(less, tables, s.levels, level0)
    ensures forall j, t :: 0 <= j < NUM_LEVELS && t in tables[j] ==> t.largest.seqno <= MAX_SEQUENCE
  {
    forall j, t | 0 <= j < NUM_LEVELS && t in tables[j]
      ensures t.largest.seqno <= MAX_SEQUENCE
    {
      assert LevelOk(less, j, tables[j]) && TableOk(less, t);
      EndsAreEntries(less, t);
      assert t.largest in InTables(tables[j]);
      InUnion(s.levels, j, t.largest);
    }
  }

  lemma CanFlushTo(less: KeyOrder, tables: seq<seq<Table>>, s: State, level0: seq<set<Entry>>, meta: Table, level: nat)
    requires Shaped(s) && s.imm.Some? && TablesAre(less, tables, s.levels, level0) && TableOk(less, meta)
    requires Range(meta.entries) == s.imm.value && FlushTo(less, tables, meta, level)
    ensures Enabled(s, Action.Flush(level))
  {
    if level > 0 {
      forall j | 0 <= j <= level
        ensures forall e, f :: e in s.levels[j] && f in s.imm.value ==> e.key != f.key
      {
        NoKeyShared(less, tables, meta, j);
        assert forall f :: f in s.imm.value ==> f in meta.entries;
      }
    }
  }
}
