// Picked inputs that end within a user key, and runs of the store after which
// their compaction or move brings old data back.
module SplitKeys {
  import opened Basics
  import opened Compaction
  import opened CutBoundaries
  import opened Entries
  import opened Sequences
  import opened Store
  import opened VersionSets

  // ----- Runs -----

  // One more action of a run.
  lemma Do(from: State, run: seq<Action>, s: State, a: Action) returns (longer: seq<Action>, t: State)
    requires Inv(s) && Reaches(from, run, s) && Enabled(s, a)
    ensures t == Apply(s, a) && Inv(t) && Reaches(from, longer, t)
  {
    hide Inv;
    hide Apply;
    t := Apply(s, a);
    longer := run + [a];
    StepKeeps(s, a);
    ReachesOneMore(from, run, s, a, t);
  }

  // A state without its history and logs.
  datatype Core = Core(last: nat, mem: set<Entry>, imm: Option<set<Entry>>, levels: seq<set<Entry>>,
                       snapshots: multiset<nat>, pending: Option<Group>, work: Option<Work>)

  function CoreOf(s: State): Core {
    Core(s.lastSequence, s.mem, s.imm, s.levels, s.snapshots, s.pending, s.work)
  }

  lemma WritingIs(s: State)
    requires Shaped(s)
    ensures forall ops :: s.pending.None? ==> Enabled(s, LogGroup(ops))
    ensures forall ops :: s.pending.None? ==>
              CoreOf(Apply(s, LogGroup(ops))) == CoreOf(s).(pending := Some(Group(Batch(s.lastSequence + 1, ops), 0)))
    ensures s.pending.Some? && s.pending.value.inserted < |s.pending.value.batch.ops| ==>
      var g := s.pending.value;
      && Enabled(s, Insert)
      && CoreOf(Apply(s, Insert))
         == CoreOf(s).(mem := s.mem + {Numbered(g.batch)[g.inserted]}, pending := Some(g.(inserted := g.inserted + 1)))
    ensures s.pending.Some? && s.pending.value.inserted == |s.pending.value.batch.ops| ==>
      && Enabled(s, Publish)
      && CoreOf(Apply(s, Publish)) == CoreOf(s).(last := s.lastSequence + |s.pending.value.batch.ops|, pending := None)
  {
  }

  lemma FlushingIs(s: State, level: nat)
    requires Shaped(s)
    ensures s.pending.None? && s.imm.None? ==>
      Enabled(s, SwitchMemTable) && CoreOf(Apply(s, SwitchMemTable)) == CoreOf(s).(imm := Some(s.mem), mem := {})
    ensures Enabled(s, Flush(level)) ==>
      CoreOf(Apply(s, Flush(level)))
      == CoreOf(s).(levels := s.levels[level := s.levels[level] + s.imm.value], imm := None)
  {
  }

  lemma CompactingIs(s: State, w: Work)
    requires Shaped(s)
    ensures Enabled(s, StartCompaction(w)) ==> CoreOf(Apply(s, StartCompaction(w))) == CoreOf(s).(work := Some(w))
    ensures s.work == Some(w) ==>
      && Enabled(s, FinishCompaction) && w.level + 1 < |s.levels|
      && CoreOf(Apply(s, FinishCompaction)) == CoreOf(s).(levels := Installed(s.levels, w, Outputs(w)), work := None)
  {
  }

  lemma InvIsShaped(s: State)
    requires Inv(s)
    ensures Shaped(s) && |s.levels| == NUM_LEVELS
  {
  }

  // Nothing is under way and everything is in tables.
  predicate Quiet(c: Core) {
    c.pending.None? && c.imm.None? && c.mem == {} && c.work.None?
  }

  lemma {:induction false} InsertAll(from: State, run: seq<Action>, s: State) returns (longer: seq<Action>, t: State)
    requires Inv(s) && Reaches(from, run, s) && s.pending.Some?
    requires s.pending.value.inserted <= |s.pending.value.batch.ops|
    ensures Inv(t) && Reaches(from, longer, t)
    ensures var g := s.pending.value;
      CoreOf(t) == CoreOf(s).(mem := s.mem + Range(Numbered(g.batch)[g.inserted..]),
                              pending := Some(Group(g.batch, |g.batch.ops|)))
    decreases |s.pending.value.batch.ops| - s.pending.value.inserted
  {
    hide Inv;
    hide Reaches;
    hide Enabled;
    hide Apply;
    hide Shaped;
    hide Numbered;
    hide Range;
    var g := s.pending.value;
    InvIsShaped(s);
    if g.inserted == |g.batch.ops| {
      RangeFrom(Numbered(g.batch), g.inserted, s.mem);
      longer, t := run, s;
    } else {
      WritingIs(s);
      RangeFrom(Numbered(g.batch), g.inserted, s.mem);
      longer, t := Do(from, run, s, Insert);
      longer, t := InsertAll(from, longer, t);
    }
  }

  lemma RangeFrom(es: seq<Entry>, i: nat, mem: set<Entry>)
    requires i <= |es|
    ensures i == |es| ==> mem + Range(es[i..]) == mem
    ensures i < |es| ==> mem + Range(es[i..]) == mem + {es[i]} + Range(es[i + 1..])
  {
    assert i < |es| ==> es[i..] == [es[i]] + es[i + 1..];
  }

  ghost predicate NoneSharedDownTo(levels: seq<set<Entry>>, ops: seq<Write>, level: nat) {
    forall j, e, i :: 0 <= j <= level && j < |levels| && e in levels[j] && 0 <= i < |ops| ==> e.key != ops[i].key
  }

  function Written(first: nat, ops: seq<Write>): set<Entry> {
    Range(Numbered(Batch(first, ops)))
  }

  // A group of writes is logged, inserted and published.
  lemma Writes(from: State, run: seq<Action>, s: State, ops: seq<Write>) returns (longer: seq<Action>, t: State)
    requires Inv(s) && Reaches(from, run, s) && Quiet(CoreOf(s))
    ensures Inv(t) && Reaches(from, longer, t)
    ensures CoreOf(t) == CoreOf(s).(mem := Written(s.lastSequence + 1, ops), last := s.lastSequence + |ops|)
  {
    InvIsShaped(s);
    hide Inv;
    hide Reaches;
    hide Enabled;
    hide Apply;
    hide Shaped;
    var b := Batch(s.lastSequence + 1, ops);
    WritingIs(s);
    longer, t := Do(from, run, s, LogGroup(ops));
    longer, t := InsertAll(from, longer, t);
    assert Numbered(b)[0..] == Numbered(b);
    hide Numbered;
    hide Range;
    NothingIn(Range(Numbered(b)));
    InvIsShaped(t);
    WritingIs(t);
    longer, t := Do(from, longer, t, Publish);
  }

  lemma NothingIn(es: set<Entry>)
    ensures {} + es == es
  {
  }

  lemma MayFlush(s: State, first: nat, ops: seq<Write>, level: nat)
    requires Shaped(s) && s.imm == Some(Written(first, ops)) && level < NUM_LEVELS
    requires level == 0 || NoneSharedDownTo(s.levels, ops, level)
    ensures Enabled(s, Flush(level))
  {
    forall j, e, f | 0 <= j <= level && e in s.levels[j] && f in s.imm.value && level > 0
      ensures e.key != f.key
    {
      var i :| 0 <= i < |ops| && Numbered(Batch(first, ops))[i] == f;
    }
  }

  // And flushed to a level.
  lemma WriteAndFlush(from: State, run: seq<Action>, s: State, ops: seq<Write>, level: nat)
    returns (longer: seq<Action>, t: State)
    requires Inv(s) && Reaches(from, run, s) && Quiet(CoreOf(s)) && level < NUM_LEVELS
    requires level == 0 || NoneSharedDownTo(s.levels, ops, level)
    ensures Inv(t) && Reaches(from, longer, t) && |s.levels| == NUM_LEVELS
    ensures CoreOf(t) == CoreOf(s).(levels := s.levels[level := s.levels[level] + Written(s.lastSequence + 1, ops)],
                                    last := s.lastSequence + |ops|)
  {
    InvIsShaped(s);
    hide Inv;
    hide Reaches;
    hide Enabled;
    hide Apply;
    hide Shaped;
    hide Written;
    longer, t := Writes(from, run, s, ops);
    InvIsShaped(t);
    FlushingIs(t, level);
    longer, t := Do(from, longer, t, SwitchMemTable);
    InvIsShaped(t);
    MayFlush(t, s.lastSequence + 1, ops, level);
    FlushingIs(t, level);
    longer, t := Do(from, longer, t, Flush(level));
  }

  // A compaction is started and finished.
  lemma Compacts(from: State, run: seq<Action>, s: State, w: Work) returns (longer: seq<Action>, t: State)
    requires Inv(s) && Reaches(from, run, s) && Enabled(s, StartCompaction(w))
    ensures Inv(t) && Reaches(from, longer, t)
    ensures CoreOf(t) == CoreOf(s).(levels := Installed(s.levels, w, Outputs(w)), work := None)
  {
    InvIsShaped(s);
    assert w.level + 1 < |s.levels|;
    hide Inv;
    hide Reaches;
    hide Apply;
    hide Shaped;
    hide Installed;
    CompactingIs(s, w);
    hide Enabled;
    longer, t := Do(from, run, s, StartCompaction(w));
    InvIsShaped(t);
    CompactingIs(t, w);
    longer, t := Do(from, longer, t, FinishCompaction);
  }

  // ----- Inputs that go wrong -----

  // What the first three levels hold, the others being empty.
  ghost function Filled(a: set<Entry>, b: set<Entry>, c: set<Entry>): (levels: seq<set<Entry>>)
    ensures |levels| == NUM_LEVELS && levels[0] == a && levels[1] == b && levels[2] == c
    ensures forall j :: 3 <= j < NUM_LEVELS ==> levels[j] == {}
  {
    [a, b, c, {}, {}, {}, {}]
  }

  lemma FilledElsewise(a: set<Entry>, b: set<Entry>, c: set<Entry>, d: set<Entry>)
    ensures Filled(a, b, c)[0 := d] == Filled(d, b, c)
    ensures Filled(a, b, c)[1 := d] == Filled(a, d, c)
    ensures Filled(a, b, c)[2 := d] == Filled(a, b, d)
  {
  }

  const OLD_VALUE := Entry([7], 1, Put, [1])
  const NEW_VALUE := Entry([7], 2, Put, [2])

  const DELETED := Entry([7], 6, Deletion, [])
  const OLD_PUT := Entry([7], 4, Put, [4])
  const FIVE := Entry([5], 1, Put, [1])
  const NINE := Entry([9], 2, Put, [2])
  const FIFTEEN := Entry([15], 3, Put, [3])
  const TWENTY := Entry([20], 5, Put, [5])
  const INPUT := {DELETED, FIVE, NINE}
  const OTHERS := {OLD_PUT, TWENTY, FIFTEEN}

  function OneTable(entries: seq<Entry>): Table
    requires entries != []
  {
    Table(entries[0], entries[|entries| - 1], 1, entries)
  }

  // A deletion in one table of level 1, the deleted put in the next; the table
  // behind cannot be taken in, since that would take in more of level 2.
  function DeletedAt1(): seq<Table> {
    [OneTable([DELETED]), OneTable([OLD_PUT, TWENTY])]
  }

  function TablesAt2(): seq<Table> {
    [OneTable([FIVE, NINE]), OneTable([FIFTEEN])]
  }

  ghost predicate Ascending(less: KeyOrder) {
    TotalOrder(less) && less([5], [7]) && less([7], [9]) && less([9], [15]) && less([15], [20])
  }

  lemma TablesAreOk(less: KeyOrder)
    requires Ascending(less)
    ensures LevelOk(less, 1, DeletedAt1()) && LevelOk(less, 2, TablesAt2())
    ensures SplitsKey(DeletedAt1(), [DeletedAt1()[0]])
  {
    assert forall t :: t in DeletedAt1() ==> TableOk(less, t);
    assert forall t :: t in TablesAt2() ==> TableOk(less, t);
    assert SplitAt(DeletedAt1(), [DeletedAt1()[0]], 1);
  }

  lemma FirstOverlaps(less: KeyOrder)
    requires Ascending(less)
    ensures Overlapping(less, TablesAt2(), RangeOf(less, [DeletedAt1()[0]])) == [TablesAt2()[0]]
  {
    OverlappingTwo(less, TablesAt2()[0], TablesAt2()[1], RangeOf(less, [DeletedAt1()[0]]));
  }

  lemma BothOverlap(less: KeyOrder)
    requires Ascending(less)
    ensures Overlapping(less, DeletedAt1(), RangeOf(less, [DeletedAt1()[0]] + [TablesAt2()[0]])) == DeletedAt1()
    ensures Overlapping(less, TablesAt2(), RangeOf(less, DeletedAt1())) == TablesAt2()
  {
    var files, next := DeletedAt1(), TablesAt2();
    assert [files[0]] + [next[0]] == [files[0], next[0]];
    RangeOfTwo(less, files[0], next[0]);
    RangeOfTwo(less, files[0], files[1]);
    hide RangeOf;
    OverlappingTwo(less, files[0], files[1], RangeOf(less, [files[0], next[0]]));
    OverlappingTwo(less, next[0], next[1], RangeOf(less, files));
  }

  // The version set picks the table with the deletion alone.
  lemma DeletionIsPickedAlone(less: KeyOrder, limit: nat)
    requires Ascending(less)
    ensures LevelOk(less, 1, DeletedAt1()) && LevelOk(less, 2, TablesAt2())
    ensures SplitsKey(DeletedAt1(), [DeletedAt1()[0]])
    ensures OtherInputs(less, DeletedAt1(), TablesAt2(), [DeletedAt1()[0]], limit)
         == ([DeletedAt1()[0]], [TablesAt2()[0]])
  {
    TablesAreOk(less);
    FirstOverlaps(less);
    BothOverlap(less);
    hide Overlapping;
    hide RangeOf;
  }

  lemma InTwo(a: Table, b: Table)
    ensures InTables([a]) == (set e | e in a.entries)
    ensures InTables([a, b]) == (set e | e in a.entries) + (set e | e in b.entries)
  {
    assert a in [a] && a in [a, b] && b in [a, b];
  }

  lemma TwoLevels(a: set<Entry>, b: set<Entry>)
    requires Distinct(a + b) && forall e, f :: e in a && f in b ==> e.key != f.key
    ensures NewerAbove(Filled({}, a, b)) && Union(Filled({}, a, b)) == a + b
  {
    var levels := Filled({}, a, b);
    hide Filled;
    forall e | e in a + b
      ensures e in Union(levels)
    {
      InUnion(levels, if e in a then 1 else 2, e);
    }
  }

  lemma PutComesBack()
    ensures Resurrects(INPUT, OTHERS, 6, {[5], [7], [9]}, DELETED, OLD_PUT)
  {
    assert Finds(OTHERS, [7], 6, OLD_PUT);
    assert forall p :: p in INPUT + OTHERS && p.key == [7] ==> p == DELETED || p == OLD_PUT;
  }

  lemma TablesHold()
    ensures InTables(DeletedAt1()) == {DELETED, OLD_PUT, TWENTY} && InTables([DeletedAt1()[0]]) == {DELETED}
    ensures InTables(TablesAt2()) == {FIVE, NINE, FIFTEEN} && InTables([TablesAt2()[0]]) == {FIVE, NINE}
  {
    InTwo(DeletedAt1()[0], DeletedAt1()[1]);
    InTwo(TablesAt2()[0], TablesAt2()[1]);
    hide InTables;
  }

  lemma ContentsAre()
    ensures InTables(DeletedAt1()) + InTables(TablesAt2()) == INPUT + OTHERS
    ensures InTables([DeletedAt1()[0]]) + InTables([TablesAt2()[0]]) == INPUT && INPUT !! OTHERS
    ensures InTables([DeletedAt1()[0]]) <= InTables(DeletedAt1()) && InTables([TablesAt2()[0]]) <= InTables(TablesAt2())
    ensures forall e, f :: e in InTables(DeletedAt1()) && f in InTables(TablesAt2()) ==> e.key != f.key
  {
    TablesHold();
    var a, a0 := InTables(DeletedAt1()), InTables([DeletedAt1()[0]]);
    var b, b0 := InTables(TablesAt2()), InTables([TablesAt2()[0]]);
    hide InTables;
    hide DeletedAt1;
    hide TablesAt2;
    assert a + b == INPUT + OTHERS && a0 + b0 == INPUT;
  }

  lemma BringsBack(a: set<Entry>, b: set<Entry>, w: Work, d: Entry, o: Entry)
    requires Distinct(a + b) && (forall e, f :: e in a && f in b ==> e.key != f.key)
    requires w.level == 1 && w.upper <= a && w.lower <= b
    requires Resurrects(w.upper + w.lower, a + b - (w.upper + w.lower), w.smallest, w.base, d, o)
    ensures var levels := Filled({}, a, b);
      && Installable(levels, w, Outputs(w))
      && Get(levels, d.key, w.smallest) == None
         && Get(Installed(levels, w, Outputs(w)), d.key, w.smallest) == Some(o.value)
  {
    var levels := Filled({}, a, b);
    TwoLevels(a, b);
    OutputsAreInputs(w);
    hide Filled;
    hide Union;
    hide NewerAbove;
    hide Distinct;
    hide Resurrects;
    hide Outputs;
    hide Get;
    hide Installed;
    DroppedDeletionIsSeen(levels, w, d, o);
  }

  lemma Difference(all: set<Entry>, input: set<Entry>, others: set<Entry>)
    requires all == input + others && input !! others
    ensures all - input == others
  {
  }

  lemma AllDistinct()
    ensures Distinct(INPUT + OTHERS)
  {
  }

  ghost function DeletionWork(): Work {
    Work(1, InTables([DeletedAt1()[0]]), InTables([TablesAt2()[0]]), 6, {[5], [7], [9]})
  }

  // And the compaction of it brings the put back: the deletion is dropped, as no
  // file further down has the key, and the put is left behind.
  lemma CompactionCanBringBackOldData()
    ensures var levels, w := Filled({}, InTables(DeletedAt1()), InTables(TablesAt2())), DeletionWork();
      && Installable(levels, w, Outputs(w))
      && Get(levels, [7], 6) == None && Get(Installed(levels, w, Outputs(w)), [7], 6) == Some([4])
  {
    var a, b, w := InTables(DeletedAt1()), InTables(TablesAt2()), DeletionWork();
    ContentsAre();
    PutComesBack();
    AllDistinct();
    hide InTables;
    hide DeletedAt1;
    hide TablesAt2;
    hide Resurrects;
    hide Distinct;
    hide Installable;
    hide Installed;
    hide Filled;
    hide Get;
    hide Outputs;
    Difference(a + b, INPUT, OTHERS);
    BringsBack(a, b, w, DELETED, OLD_PUT);
  }

  // Two versions of a key, both kept for a snapshot, are in two tables of level 2;
  // moving the table with the newer one brings the older one back.
  lemma MoveCanBringBackOldData()
    ensures var levels, w := Filled({}, {}, {OLD_VALUE, NEW_VALUE}), Move(2, {NEW_VALUE});
      && Installable(levels, w, {NEW_VALUE})
      && Get(levels, [7], 2) == Some([2]) && Get(Installed(levels, w, {NEW_VALUE}), [7], 2) == Some([1])
  {
    var both := {OLD_VALUE, NEW_VALUE};
    var levels, w := Filled({}, {}, both), Move(2, {NEW_VALUE});
    hide Filled;
    assert NewerAbove(levels);
    assert Union(levels) == both by {
      forall e | e in both
        ensures e in Union(levels)
      {
        InUnion(levels, 2, e);
      }
    }
    hide Union;
    assert Rest(levels, w) == {OLD_VALUE};
    assert Finds({OLD_VALUE}, [7], 2, OLD_VALUE);
    hide NewerAbove;
    hide Get;
    hide Installed;
    StaleIsSeen(levels, w, {NEW_VALUE}, 0, NEW_VALUE, OLD_VALUE);
  }

  // The version set picks the table with the newer version alone, and it overlaps
  // nothing below.
  lemma NewVersionIsPickedAlone(less: KeyOrder, limit: nat)
    requires TotalOrder(less)
    ensures var files := [OneTable([NEW_VALUE]), OneTable([OLD_VALUE])];
      && LevelOk(less, 2, files) && SplitsKey(files, [files[0]]) && InTables(files) == {OLD_VALUE, NEW_VALUE}
      && InTables([files[0]]) == {NEW_VALUE} && OtherInputs(less, files, [], [files[0]], limit) == ([files[0]], [])
  {
    var files := [OneTable([NEW_VALUE]), OneTable([OLD_VALUE])];
    assert forall t :: t in files ==> TableOk(less, t);
    assert SplitAt(files, [files[0]], 1);
    InTwo(files[0], files[1]);
  }

  // ----- Runs to these inputs -----

  lemma SnapshotIs(s: State, n: nat)
    requires Shaped(s)
    ensures Enabled(s, GetSnapshot)
    ensures CoreOf(Apply(s, GetSnapshot)) == CoreOf(s).(snapshots := s.snapshots + multiset{s.lastSequence})
    ensures n in s.snapshots ==>
      && Enabled(s, ReleaseSnapshot(n))
      && CoreOf(Apply(s, ReleaseSnapshot(n))) == CoreOf(s).(snapshots := s.snapshots - multiset{n})
  {
  }

  lemma WrittenAre(first: nat, a: Write, b: Write)
    ensures Written(first, [a]) == {Entry(a.key, first, a.kind, a.value)}
    ensures Written(first, [a, b]) == {Entry(a.key, first, a.kind, a.value), Entry(b.key, first + 1, b.kind, b.value)}
  {
    var one, two := Numbered(Batch(first, [a])), Numbered(Batch(first, [a, b]));
    assert one == [Entry(a.key, first, a.kind, a.value)];
    assert two == [Entry(a.key, first, a.kind, a.value), Entry(b.key, first + 1, b.kind, b.value)];
  }

  function Settled(last: nat, levels: seq<set<Entry>>, snapshots: multiset<nat>): Core {
    Core(last, {}, None, levels, snapshots, None, None)
  }

  // A group of writes flushed, from one settled state to the next.
  lemma Flushes(from: State, run: seq<Action>, s: State, ops: seq<Write>, level: nat, last: nat,
                levels: seq<set<Entry>>, snapshots: multiset<nat>, after: seq<set<Entry>>)
    returns (longer: seq<Action>, t: State)
    requires Inv(s) && Reaches(from, run, s) && CoreOf(s) == Settled(last, levels, snapshots)
    requires level < NUM_LEVELS == |levels|
    requires level == 0 || NoneSharedDownTo(levels, ops, level)
    requires after == levels[level := levels[level] + Written(last + 1, ops)]
    ensures Inv(t) && Reaches(from, longer, t) && CoreOf(t) == Settled(last + |ops|, after, snapshots)
  {
    hide Inv;
    hide Reaches;
    hide Written;
    longer, t := WriteAndFlush(from, run, s, ops, level);
  }

  const PUT_5 := Write(Put, [5], [1])
  const PUT_9 := Write(Put, [9], [2])
  const PUT_15 := Write(Put, [15], [3])
  const PUT_7 := Write(Put, [7], [4])
  const PUT_20 := Write(Put, [20], [5])
  const DELETE_7 := Write(Deletion, [7], [])

  ghost predicate At(log: nat, run: seq<Action>, s: State, last: nat, levels: seq<set<Entry>>,
                     snapshots: multiset<nat>) {
    Inv(s) && Reaches(Opened(log), run, s) && CoreOf(s) == Settled(last, levels, snapshots)
  }

  // A new store.
  lemma Start(log: nat) returns (s: State)
    ensures At(log, [], s, 0, Filled({}, {}, {}), multiset{})
  {
    OpenedOk(log);
    s := Opened(log);
  }

  lemma FlushTo(log: nat, run: seq<Action>, s: State, ops: seq<Write>, level: nat, last: nat, levels: seq<set<Entry>>,
                snapshots: multiset<nat>, es: set<Entry>)
    returns (longer: seq<Action>, t: State)
    requires At(log, run, s, last, levels, snapshots) && level < NUM_LEVELS == |levels|
    requires level == 0 || NoneSharedDownTo(levels, ops, level)
    requires Written(last + 1, ops) == es - levels[level] && levels[level] <= es
    ensures At(log, longer, t, last + |ops|, levels[level := es], snapshots)
  {
    assert levels[level] + (es - levels[level]) == es;
    hide Inv;
    hide Reaches;
    hide Written;
    hide Opened;
    longer, t := Flushes(Opened(log), run, s, ops, level, last, levels, snapshots, levels[level := es]);
  }

  lemma SnapshotAt(log: nat, run: seq<Action>, s: State, last: nat, levels: seq<set<Entry>>)
    returns (longer: seq<Action>, t: State)
    requires At(log, run, s, last, levels, multiset{})
    ensures At(log, longer, t, last, levels, multiset{last})
  {
    assert multiset{} + multiset{last} == multiset{last};
    InvIsShaped(s);
    SnapshotIs(s, last);
    hide Inv;
    hide Reaches;
    hide Apply;
    hide Enabled;
    hide Opened;
    longer, t := Do(Opened(log), run, s, GetSnapshot);
  }

  lemma ReleaseAt(log: nat, run: seq<Action>, s: State, last: nat, levels: seq<set<Entry>>, n: nat)
    returns (longer: seq<Action>, t: State)
    requires At(log, run, s, last, levels, multiset{n})
    ensures At(log, longer, t, last, levels, multiset{})
  {
    InvIsShaped(s);
    SnapshotIs(s, n);
    hide Inv;
    hide Reaches;
    hide Apply;
    hide Enabled;
    hide Opened;
    longer, t := Do(Opened(log), run, s, ReleaseSnapshot(n));
  }

  lemma CompactAt(log: nat, run: seq<Action>, s: State, last: nat, levels: seq<set<Entry>>, snapshots: multiset<nat>,
                  w: Work)
    returns (longer: seq<Action>, t: State)
    requires At(log, run, s, last, levels, snapshots) && |levels| == NUM_LEVELS && w.level + 1 < NUM_LEVELS
    requires w.upper <= levels[w.level] && w.lower <= levels[w.level + 1] && CleanCut(levels, w)
    requires if snapshots == multiset{} then w.smallest == last else snapshots == multiset{w.smallest}
    ensures At(log, longer, t, last, Installed(levels, w, Outputs(w)), snapshots)
  {
    InvIsShaped(s);
    assert Enabled(s, StartCompaction(w));
    hide Inv;
    hide Reaches;
    hide Enabled;
    hide Opened;
    hide Installed;
    hide CleanCut;
    longer, t := Compacts(Opened(log), run, s, w);
  }

  // Two tables go to level 2, a third that overlaps them to level 1.
  lemma FillLevels(log: nat) returns (run: seq<Action>, s: State)
    ensures At(log, run, s, 5, Filled({}, {OLD_PUT, TWENTY}, {FIVE, NINE, FIFTEEN}), multiset{})
  {
    s := Start(log);
    run := [];
    hide At;
    WrittenAre(1, PUT_5, PUT_9);
    WrittenAre(3, PUT_15, PUT_15);
    WrittenAre(4, PUT_7, PUT_20);
    hide Written;
    run, s := FlushTo(log, run, s, [PUT_5, PUT_9], 2, 0, Filled({}, {}, {}), multiset{}, {FIVE, NINE});
    FilledElsewise({}, {}, {}, {FIVE, NINE});
    run, s := FlushTo(log, run, s, [PUT_15], 2, 2, Filled({}, {}, {FIVE, NINE}), multiset{}, {FIVE, NINE, FIFTEEN});
    FilledElsewise({}, {}, {FIVE, NINE}, {FIVE, NINE, FIFTEEN});
    run, s := FlushTo(log, run, s, [PUT_7, PUT_20], 1, 3, Filled({}, {}, {FIVE, NINE, FIFTEEN}), multiset{},
                      {OLD_PUT, TWENTY});
    FilledElsewise({}, {}, {FIVE, NINE, FIFTEEN}, {OLD_PUT, TWENTY});
  }

  // The deletion comes with a snapshot alive, so that the merge into level 1 keeps
  // the put; base keys are those no table of level 2 covers.
  lemma MergeIntoLevel1()
    ensures var w := Work(0, {DELETED}, {OLD_PUT, TWENTY}, 5, {[20]});
      var levels := Filled({DELETED}, {OLD_PUT, TWENTY}, {FIVE, NINE, FIFTEEN});
      && CleanCut(levels, w)
      && Installed(levels, w, Outputs(w)) == Filled({}, {DELETED, OLD_PUT, TWENTY}, {FIVE, NINE, FIFTEEN})
  {
    var w := Work(0, {DELETED}, {OLD_PUT, TWENTY}, 5, {[20]});
    var levels := Filled({DELETED}, {OLD_PUT, TWENTY}, {FIVE, NINE, FIFTEEN});
    assert Outputs(w) == {DELETED, OLD_PUT, TWENTY};
    hide Outputs;
    assert levels[0] - w.upper == {} && levels[1] - w.lower + Outputs(w) == {DELETED, OLD_PUT, TWENTY};
    FilledElsewise({DELETED}, {OLD_PUT, TWENTY}, {FIVE, NINE, FIFTEEN}, {});
    FilledElsewise({}, {OLD_PUT, TWENTY}, {FIVE, NINE, FIFTEEN}, {DELETED, OLD_PUT, TWENTY});
    hide Filled;
  }

  lemma DeletionRun(log: nat) returns (run: seq<Action>, s: State)
    ensures At(log, run, s, 6, Filled({}, {DELETED, OLD_PUT, TWENTY}, {FIVE, NINE, FIFTEEN}), multiset{})
  {
    run, s := FillLevels(log);
    hide At;
    WrittenAre(6, DELETE_7, DELETE_7);
    hide Written;
    var b, c := {OLD_PUT, TWENTY}, {FIVE, NINE, FIFTEEN};
    run, s := SnapshotAt(log, run, s, 5, Filled({}, b, c));
    run, s := FlushTo(log, run, s, [DELETE_7], 0, 5, Filled({}, b, c), multiset{5}, {DELETED});
    FilledElsewise({}, b, c, {DELETED});
    MergeIntoLevel1();
    hide CleanCut;
    hide Installed;
    hide Outputs;
    run, s := CompactAt(log, run, s, 5 + 1, Filled({DELETED}, b, c), multiset{5}, Work(0, {DELETED}, b, 5, {[20]}));
    run, s := ReleaseAt(log, run, s, 6, Filled({}, {DELETED, OLD_PUT, TWENTY}, c), 5);
  }

  // So a run leads to the tables above, where the compaction the version set picks
  // makes a deleted key come back.
  lemma DeletedDataIsReached(log: nat) returns (run: seq<Action>, s: State)
    ensures Inv(s) && Reaches(Opened(log), run, s)
    ensures s.levels == Filled({}, InTables(DeletedAt1()), InTables(TablesAt2()))
    ensures var w := DeletionWork();
      && s.work.None? && SmallestSnapshot(s, w.smallest) && s.lastSequence == 6
      && Lookup(Range(s.history), [7], 6) == None && Get(Installed(s.levels, w, Outputs(w)), [7], 6) == Some([4])
  {
    run, s := DeletionRun(log);
    TablesHold();
    CompactionCanBringBackOldData();
    hide Reaches;
    hide Opened;
    hide InTables;
    hide Filled;
    hide Outputs;
    hide Installed;
    LevelsAlone(s, [7], 6);
  }

  // With both memtables empty the levels alone decide.
  lemma LevelsAlone(s: State, k: Key, n: nat)
    requires Inv(s) && s.mem == {} && s.imm.None? && n == s.lastSequence
    ensures Get(s.levels, k, n) == Lookup(Range(s.history), k, n)
  {
    ReadsAreExact(s, k, n);
    hide Inv;
    hide Lookup;
    var layers := Layers(s);
    assert layers[1..] == [Immutable(s)] + s.levels && layers[1..][1..] == s.levels;
    assert !Has(layers[0], k, n) && !Has(layers[1..][0], k, n);
  }

  // Likewise for the move: the newer version is merged into level 2 under a
  // snapshot, which keeps both.
  lemma MergeIntoLevel2()
    ensures var w := Work(1, {NEW_VALUE}, {OLD_VALUE}, 1, {[7]});
      var levels := Filled({}, {NEW_VALUE}, {OLD_VALUE});
      && CleanCut(levels, w) && Installed(levels, w, Outputs(w)) == Filled({}, {}, {OLD_VALUE, NEW_VALUE})
  {
    var w := Work(1, {NEW_VALUE}, {OLD_VALUE}, 1, {[7]});
    var levels := Filled({}, {NEW_VALUE}, {OLD_VALUE});
    assert Outputs(w) == {OLD_VALUE, NEW_VALUE};
    hide Outputs;
    assert levels[1] - w.upper == {} && levels[2] - w.lower + Outputs(w) == {OLD_VALUE, NEW_VALUE};
    FilledElsewise({}, {NEW_VALUE}, {OLD_VALUE}, {});
    FilledElsewise({}, {}, {OLD_VALUE}, {OLD_VALUE, NEW_VALUE});
    hide Filled;
  }

  const PUT_OLD := Write(Put, [7], [1])
  const PUT_NEW := Write(Put, [7], [2])

  lemma MoveRun(log: nat) returns (run: seq<Action>, s: State)
    ensures At(log, run, s, 2, Filled({}, {}, {OLD_VALUE, NEW_VALUE}), multiset{1})
  {
    s := Start(log);
    run := [];
    hide At;
    WrittenAre(1, PUT_OLD, PUT_OLD);
    WrittenAre(2, PUT_NEW, PUT_NEW);
    hide Written;
    run, s := FlushTo(log, run, s, [PUT_OLD], 2, 0, Filled({}, {}, {}), multiset{}, {OLD_VALUE});
    FilledElsewise({}, {}, {}, {OLD_VALUE});
    run, s := SnapshotAt(log, run, s, 1, Filled({}, {}, {OLD_VALUE}));
    run, s := FlushTo(log, run, s, [PUT_NEW], 1, 1, Filled({}, {}, {OLD_VALUE}), multiset{1}, {NEW_VALUE});
    FilledElsewise({}, {}, {OLD_VALUE}, {NEW_VALUE});
    MergeIntoLevel2();
    hide CleanCut;
    hide Installed;
    hide Outputs;
    run, s := CompactAt(log, run, s, 1 + 1, Filled({}, {NEW_VALUE}, {OLD_VALUE}), multiset{1},
                        Work(1, {NEW_VALUE}, {OLD_VALUE}, 1, {[7]}));
  }

  lemma MovedDataIsReached(log: nat) returns (run: seq<Action>, s: State)
    ensures Inv(s) && Reaches(Opened(log), run, s)
    ensures s.levels == Filled({}, {}, {OLD_VALUE, NEW_VALUE}) && s.work.None? && s.lastSequence == 2
    ensures Lookup(Range(s.history), [7], 2) == Some([2])
    ensures Get(Installed(s.levels, Move(2, {NEW_VALUE}), {NEW_VALUE}), [7], 2) == Some([1])
  {
    run, s := MoveRun(log);
    MoveCanBringBackOldData();
    hide Reaches;
    hide Opened;
    hide Filled;
    hide Installed;
    LevelsAlone(s, [7], 2);
  }
}
