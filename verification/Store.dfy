// The store as a state machine: writes go to a log and a memtable, full
// memtables are flushed to tables, tables are merged downwards, and a crash
// leaves only files behind. The steps are the stretches of code that run under
// the mutex, and the single insertions a writer makes without it.
module Store {
  import opened Basics
  import opened Compaction
  import opened Entries
  import opened Sequences

  // ----- State -----

  datatype Write = Write(kind: Kind, key: Key, value: Value)

  // A write batch as it goes to the log: its operations take consecutive
  // sequence numbers from the one in its header on.
  datatype Batch = Batch(sequence: nat, ops: seq<Write>)

  function Numbered(b: Batch): (es: seq<Entry>)
    ensures |es| == |b.ops|
    ensures forall i :: 0 <= i < |es| ==> es[i] == Entry(b.ops[i].key, b.sequence + i, b.ops[i].kind, b.ops[i].value)
  {
    seq(|b.ops|, i requires 0 <= i < |b.ops| => Entry(b.ops[i].key, b.sequence + i, b.ops[i].kind, b.ops[i].value))
  }

  // A group of writes that is in the log but not yet published.
  datatype Group = Group(batch: Batch, inserted: nat)

  // A compaction under way, with what it captured when it started.
  datatype Work = Work(level: nat, upper: set<Entry>, lower: set<Entry>, smallest: nat, base: set<Key>)

  type Logs = map<nat, seq<Batch>>

  datatype State = State(
    history: seq<Entry>,     // every entry ever logged, in sequence order
    lastSequence: nat,       // versions_->LastSequence()
    mem: set<Entry>,
    imm: Option<set<Entry>>,
    levels: seq<set<Entry>>,
    snapshots: multiset<nat>,
    pending: Option<Group>,
    work: Option<Work>,
    logs: Logs,
    logNumber: nat,          // logfile_number_
    nextFile: nat,
    manifestLog: nat,        // versions_->LogNumber()
    manifestSequence: nat,
    floor: nat)              // the highest smallest_snapshot of an installed compaction

  function Immutable(s: State): set<Entry> {
    if s.imm.Some? then s.imm.value else {}
  }

  // The places a read looks, in order.
  function Layers(s: State): (ls: seq<set<Entry>>)
    ensures |ls| == |s.levels| + 2
  {
    [s.mem, Immutable(s)] + s.levels
  }

  function Union(layers: seq<set<Entry>>): set<Entry> {
    set i, e | 0 <= i < |layers| && e in layers[i] :: e
  }

  function Stored(s: State): set<Entry> {
    s.mem + Immutable(s) + Union(s.levels)
  }

  function Range(es: seq<Entry>): set<Entry> {
    set e | e in es
  }

  function LogEntries(log: seq<Batch>): set<Entry> {
    set b, e | b in log && e in Numbered(b) :: e
  }

  // Everything in the logs numbered from on.
  function Replayed(logs: Logs, from: nat): set<Entry> {
    set n, e | n in logs && n >= from && e in LogEntries(logs[n]) :: e
  }

  // DeleteObsoleteFiles keeps the logs that may still be replayed.
  function LogsFrom(logs: Logs, from: nat): Logs {
    map n | n in logs && n >= from :: logs[n]
  }

  function Batches(logs: Logs, from: nat): set<Batch> {
    set n, b | n in logs && n >= from && b in logs[n] :: b
  }

  function Last(b: Batch): int {
    b.sequence + |b.ops| - 1
  }

  // The highest sequence number of these batches, but no less than least.
  ghost function Highest(bs: set<Batch>, least: nat): (m: nat)
    ensures m >= least && forall b :: b in bs ==> Last(b) <= m
    ensures m == least || exists b :: b in bs && Last(b) == m
  {
    if bs == {} then least
    else
      var b :| b in bs;
      var m := Highest(bs - {b}, least);
      if Last(b) > m then Last(b) else m
  }

  // ----- Reading -----

  ghost predicate Has(es: set<Entry>, k: Key, s: nat) {
    exists e :: e in es && e.key == k && e.seqno <= s
  }

  // A read takes the first layer that has an entry of the key at or below the
  // sequence number, and there its newest such entry.
  ghost function Get(layers: seq<set<Entry>>, k: Key, s: nat): Option<Value> {
    if layers == [] then None
    else if Has(layers[0], k, s) then Lookup(layers[0], k, s)
    else Get(layers[1..], k, s)
  }

  // For each key, an upper layer is newer throughout than a lower one.
  ghost predicate NewerAbove(layers: seq<set<Entry>>) {
    forall i, j, e, f :: 0 <= i < j < |layers| && e in layers[i] && f in layers[j] && e.key == f.key
      ==> e.seqno > f.seqno
  }

  lemma UnionUnfold(layers: seq<set<Entry>>)
    requires layers != []
    ensures Union(layers) == layers[0] + Union(layers[1..])
  {
    forall e | e in Union(layers[1..])
      ensures e in Union(layers)
    {
      var i :| 0 <= i < |layers[1..]| && e in layers[1..][i];
      assert e in layers[i + 1];
    }
    forall e | e in Union(layers)
      ensures e in layers[0] + Union(layers[1..])
    {
      var i :| 0 <= i < |layers| && e in layers[i];
      assert i > 0 ==> e in layers[1..][i - 1];
    }
  }

  lemma FirstLayerWins(layers: seq<set<Entry>>, k: Key, s: nat)
    requires layers != [] && NewerAbove(layers) && Distinct(Union(layers)) && Has(layers[0], k, s)
    ensures Lookup(layers[0], k, s) == Lookup(Union(layers), k, s)
  {
    var all, first := Union(layers), layers[0];
    var e :| e in first && e.key == k && e.seqno <= s;
    var n := NewestExists(first, k, s, e);
    forall f | f in all && f.key == k && f.seqno <= s
      ensures f.seqno <= n.seqno
    {
      var i :| 0 <= i < |layers| && f in layers[i];
    }
    UnionUnfold(layers);
    hide Union;
    hide NewerAbove;
    assert Finds(all, k, s, n);
    LookupFound(first, k, s, n);
    LookupFound(all, k, s, n);
  }

  // Then reading layer by layer finds the newest entry of all.
  lemma {:induction false} GetIsLookup(layers: seq<set<Entry>>, k: Key, s: nat)
    requires NewerAbove(layers) && Distinct(Union(layers))
    ensures Get(layers, k, s) == Lookup(Union(layers), k, s)
  {
    if layers == [] {
      assert Union(layers) == {};
    } else if Has(layers[0], k, s) {
      FirstLayerWins(layers, k, s);
    } else {
      var all, rest := Union(layers), Union(layers[1..]);
      UnionUnfold(layers);
      assert NewerAbove(layers[1..]);
      GetIsLookup(layers[1..], k, s);
      forall e: Entry
        ensures Finds(all, k, s, e) <==> Finds(rest, k, s, e)
      {
      }
      SameFinds(all, rest, k, s);
    }
  }

  lemma SameFinds(a: set<Entry>, b: set<Entry>, k: Key, s: nat)
    requires Distinct(a) && Distinct(b)
    requires forall e: Entry :: Finds(a, k, s, e) <==> Finds(b, k, s, e)
    ensures Lookup(a, k, s) == Lookup(b, k, s)
  {
    if e :| Finds(a, k, s, e) {
      LookupFound(a, k, s, e);
      LookupFound(b, k, s, e);
    }
  }

  // Only the entries at or below s matter.
  lemma SameBelow(a: set<Entry>, b: set<Entry>, k: Key, s: nat)
    requires Distinct(a) && Distinct(b)
    requires forall e: Entry :: e.seqno <= s ==> (e in a <==> e in b)
    ensures Lookup(a, k, s) == Lookup(b, k, s)
  {
    forall e: Entry
      ensures Finds(a, k, s, e) <==> Finds(b, k, s, e)
    {
    }
    SameFinds(a, b, k, s);
  }

  // ----- Steps -----

  datatype Action =
    | LogGroup(ops: seq<Write>)          // a writer at the head of the queue logs its group
    | Insert                             // and, without the mutex, inserts it entry by entry
    | Publish                            // and publishes its last sequence number
    | SwitchMemTable
    | Flush(level: nat)
    | GetSnapshot
    | ReleaseSnapshot(number: nat)
    | StartCompaction(work: Work)
    | FinishCompaction
    | TrivialMove(level: nat, file: set<Entry>)
    | CrashAndReopen

  ghost predicate Shaped(s: State) {
    && |s.levels| == NUM_LEVELS && s.logNumber in s.logs
    && (s.work.Some? ==> s.work.value.level + 1 < NUM_LEVELS)
    && (s.pending.Some? ==> s.pending.value.inserted <= |s.pending.value.batch.ops|)
  }

  // The oldest snapshot, or the last sequence number when there is none.
  ghost predicate SmallestSnapshot(s: State, n: nat) {
    if s.snapshots == multiset{} then n == s.lastSequence
    else n in s.snapshots && forall m :: m in s.snapshots ==> n <= m
  }

  // The inputs of a compaction are cut cleanly: what stays in their level is newer
  // than the inputs of its key, and no input's key is taken to be at its base
  // level while older entries of it stay in the output level or lie below.
  ghost predicate CleanCut(levels: seq<set<Entry>>, w: Work)
    requires w.level + 1 < |levels|
  {
    && (forall e, o :: e in w.upper && o in levels[w.level] - w.upper && e.key == o.key ==> o.seqno > e.seqno)
    && (forall e, o, j ::
          && e in w.upper + w.lower && w.level + 1 <= j < |levels| && o in levels[j] - w.lower
          && e.key == o.key && o.seqno <= e.seqno
          ==> e.key !in w.base)
  }

  function Move(level: nat, file: set<Entry>): Work {
    Work(level, file, {}, 0, {})
  }

  ghost predicate Enabled(s: State, a: Action) {
    && Shaped(s)
    && match a
       case LogGroup(ops) => s.pending.None?
       case Insert => s.pending.Some? && s.pending.value.inserted < |s.pending.value.batch.ops|
       case Publish => s.pending.Some? && s.pending.value.inserted == |s.pending.value.batch.ops|
       case SwitchMemTable => s.pending.None? && s.imm.None?
       // A table is put below level 0 only when no level down to there has any of its keys.
       case Flush(level) =>
         && s.imm.Some? && level < |s.levels|
         && (level == 0 || forall j, e, f :: 0 <= j <= level && e in s.levels[j] && f in s.imm.value ==> e.key != f.key)
       case GetSnapshot => true
       case ReleaseSnapshot(n) => n in s.snapshots
       case StartCompaction(w) =>
         && s.work.None? && w.level + 1 < |s.levels|
         && w.upper <= s.levels[w.level] && w.lower <= s.levels[w.level + 1]
         && SmallestSnapshot(s, w.smallest)
         && CleanCut(s.levels, w)
       case FinishCompaction => s.work.Some?
       case TrivialMove(level, file) =>
         && s.work.None? && level + 1 < |s.levels| && file <= s.levels[level]
         && CleanCut(s.levels, Move(level, file))
       case CrashAndReopen => true
  }

  ghost function Installed(levels: seq<set<Entry>>, w: Work, outputs: set<Entry>): (r: seq<set<Entry>>)
    requires w.level + 1 < |levels|
    ensures |r| == |levels|
  {
    levels[w.level := levels[w.level] - w.upper][w.level + 1 := levels[w.level + 1] - w.lower + outputs]
  }

  ghost function Outputs(w: Work): set<Entry> {
    Kept(w.upper + w.lower, w.smallest, w.base)
  }

  ghost function Apply(s: State, a: Action): State
    requires Enabled(s, a)
  {
    match a
    case LogGroup(ops) =>
      var b := Batch(s.lastSequence + 1, ops);
      s.(pending := Some(Group(b, 0)), history := s.history + Numbered(b),
         logs := s.logs[s.logNumber := s.logs[s.logNumber] + [b]])
    case Insert =>
      var g := s.pending.value;
      s.(mem := s.mem + {Numbered(g.batch)[g.inserted]}, pending := Some(g.(inserted := g.inserted + 1)))
    case Publish =>
      s.(lastSequence := s.lastSequence + |s.pending.value.batch.ops|, pending := None)
    case SwitchMemTable =>
      s.(logNumber := s.nextFile, nextFile := s.nextFile + 1, logs := s.logs[s.nextFile := []], imm := Some(s.mem),
         mem := {})
    case Flush(level) =>
      s.(levels := s.levels[level := s.levels[level] + s.imm.value], imm := None,
         manifestLog := s.logNumber, manifestSequence := s.lastSequence,
         logs := LogsFrom(s.logs, s.logNumber))
    case GetSnapshot =>
      s.(snapshots := s.snapshots + multiset{s.lastSequence})
    case ReleaseSnapshot(n) =>
      s.(snapshots := s.snapshots - multiset{n})
    case StartCompaction(w) =>
      s.(work := Some(w))
    case FinishCompaction =>
      var w := s.work.value;
      s.(levels := Installed(s.levels, w, Outputs(w)), work := None, floor := w.smallest,
         manifestSequence := s.lastSequence)
    case TrivialMove(level, file) =>
      s.(levels := Installed(s.levels, Move(level, file), file), manifestSequence := s.lastSequence)
    case CrashAndReopen =>
      var last := Highest(Batches(s.logs, s.manifestLog), s.manifestSequence);
      s.(levels := s.levels[0 := s.levels[0] + Replayed(s.logs, s.manifestLog)], lastSequence := last,
         mem := {}, imm := None, pending := None, work := None, snapshots := multiset{},
         logs := map[s.nextFile := []], logNumber := s.nextFile, nextFile := s.nextFile + 1,
         manifestLog := s.nextFile, manifestSequence := last)
  }

  ghost predicate Steps(s: State, a: Action, t: State) {
    Enabled(s, a) && t == Apply(s, a)
  }

  // ----- The invariant -----

  function Pending(s: State): seq<Entry> {
    if s.pending.Some? then Numbered(s.pending.value.batch) else []
  }

  // The entries of the pending group that are in the memtable already.
  function Inserted(s: State): set<Entry>
    requires Shaped(s)
  {
    if s.pending.Some? then Range(Pending(s)[..s.pending.value.inserted]) else {}
  }

  ghost predicate HistoryOk(s: State) {
    && (forall i :: 0 <= i < |s.history| ==> s.history[i].seqno == i + 1)
    && s.lastSequence <= |s.history| && s.history[s.lastSequence..] == Pending(s)
  }

  ghost predicate Older(a: set<Entry>, b: set<Entry>) {
    forall e, f :: e in a && f in b ==> e.seqno < f.seqno
  }

  // The memtables are newer than all the rest, and beyond the last sequence
  // number there is only what has been inserted of the pending group.
  ghost predicate LayersOk(s: State)
    requires Shaped(s)
  {
    && Stored(s) <= Range(s.history)
    && (forall e: Entry :: e in s.mem && e.seqno > s.lastSequence ==> e in Inserted(s))
    && Inserted(s) <= s.mem
    && (forall e: Entry :: e in Immutable(s) + Union(s.levels) ==> e.seqno <= s.lastSequence)
    && Older(Immutable(s) + Union(s.levels), s.mem) && Older(Union(s.levels), Immutable(s))
    && NewerAbove(s.levels)
  }

  // Readers at or above the floor see the whole history.
  ghost predicate ReadsOk(s: State) {
    && s.floor <= s.lastSequence
    && forall k: Key, n: nat :: s.floor <= n <= s.lastSequence
         ==> Lookup(Stored(s), k, n) == Lookup(Range(s.history), k, n)
  }

  ghost predicate SnapshotsOk(s: State) {
    forall n :: n in s.snapshots ==> s.floor <= n <= s.lastSequence
  }

  // What is not in tables is in the logs, and the manifest knows which ones.
  ghost predicate LogsOk(s: State)
    requires Shaped(s)
  {
    && s.manifestLog <= s.logNumber < s.nextFile
    && (forall n :: n in s.logs ==> n <= s.logNumber)
    && (forall n, b :: n in s.logs && b in s.logs[n] ==> 1 <= b.sequence && Last(b) <= |s.history|)
    && LogEntries(s.logs[s.logNumber]) == s.mem + Range(Pending(s))
    && Replayed(s.logs, s.manifestLog) == s.mem + Range(Pending(s)) + Immutable(s)
    && s.manifestSequence <= s.lastSequence
    && (forall e: Entry :: e in s.history && e.seqno > s.manifestSequence ==> e in Replayed(s.logs, s.manifestLog))
  }

  ghost predicate WorkOk(s: State)
    requires Shaped(s)
  {
    s.work.Some? ==>
      var w := s.work.value;
      && w.upper <= s.levels[w.level] && w.lower <= s.levels[w.level + 1]
      && s.floor <= w.smallest <= s.lastSequence
      && (forall n :: n in s.snapshots ==> w.smallest <= n)
      && CleanCut(s.levels, w)
  }

  ghost predicate Inv(s: State) {
    Shaped(s) && HistoryOk(s) && LayersOk(s) && ReadsOk(s) && SnapshotsOk(s) && LogsOk(s) && WorkOk(s)
  }

  // ----- What the steps do to the entries a reader can find -----

  lemma InUnion(layers: seq<set<Entry>>, i: nat, e: Entry)
    requires i < |layers| && e in layers[i]
    ensures e in Union(layers)
  {
  }

  lemma UnionAdd(layers: seq<set<Entry>>, i: nat, more: set<Entry>)
    requires i < |layers|
    ensures Union(layers[i := layers[i] + more]) == Union(layers) + more
  {
    var after := layers[i := layers[i] + more];
    forall e | e in Union(layers) + more
      ensures e in Union(after)
    {
      if e in more {
        InUnion(after, i, e);
      } else {
        var j :| 0 <= j < |layers| && e in layers[j];
        InUnion(after, j, e);
      }
    }
    forall e | e in Union(after)
      ensures e in Union(layers) + more
    {
      var j :| 0 <= j < |after| && e in after[j];
      if e !in more {
        InUnion(layers, j, e);
      }
    }
  }

  lemma OneLayerEach(layers: seq<set<Entry>>, i: nat, j: nat, e: Entry)
    requires NewerAbove(layers) && i < |layers| && j < |layers| && e in layers[j]
    ensures e in layers[i] ==> i == j
  {
  }

  lemma UnionOfInstalled(levels: seq<set<Entry>>, w: Work, outputs: set<Entry>)
    requires NewerAbove(levels) && w.level + 1 < |levels|
    requires w.upper <= levels[w.level] && w.lower <= levels[w.level + 1]
    ensures Union(Installed(levels, w, outputs)) == Union(levels) - (w.upper + w.lower) + outputs
  {
    var after := Installed(levels, w, outputs);
    forall e | e in Union(levels) - (w.upper + w.lower) + outputs
      ensures e in Union(after)
    {
      if e in outputs {
        InUnion(after, w.level + 1, e);
      } else {
        var j :| 0 <= j < |levels| && e in levels[j];
        InUnion(after, j, e);
      }
    }
    forall e | e in Union(after)
      ensures e in Union(levels) - (w.upper + w.lower) + outputs
    {
      var j :| 0 <= j < |after| && e in after[j];
      if e !in outputs {
        InUnion(levels, j, e);
        OneLayerEach(levels, w.level, j, e);
        OneLayerEach(levels, w.level + 1, j, e);
      }
    }
  }

  // Newer entries may join a level when no level above has any of their keys.
  lemma NewerAboveAdded(layers: seq<set<Entry>>, level: nat, more: set<Entry>)
    requires NewerAbove(layers) && level < |layers| && Older(Union(layers), more)
    requires forall j, e, f :: 0 <= j < level && e in layers[j] && f in more ==> e.key != f.key
    ensures NewerAbove(layers[level := layers[level] + more])
  {
    var after := layers[level := layers[level] + more];
    forall i, j, e: Entry, f: Entry | 0 <= i < j < |after| && e in after[i] && f in after[j] && e.key == f.key
      ensures e.seqno > f.seqno
    {
      assert e !in layers[i] ==> f in Union(layers);
    }
  }

  lemma Layered(mem: set<Entry>, imm: set<Entry>, levels: seq<set<Entry>>)
    requires NewerAbove(levels) && Older(imm + Union(levels), mem) && Older(Union(levels), imm)
    ensures NewerAbove([mem, imm] + levels)
    ensures Union([mem, imm] + levels) == mem + imm + Union(levels)
  {
    var ls := [mem, imm] + levels;
    assert forall i :: 2 <= i < |ls| ==> ls[i] == levels[i - 2];
    forall i, e | 2 <= i < |ls| && e in ls[i]
      ensures e in Union(levels)
    {
      InUnion(levels, i - 2, e);
    }
    forall i, j, e: Entry, f: Entry | 0 <= i < j < |ls| && e in ls[i] && f in ls[j] && e.key == f.key
      ensures e.seqno > f.seqno
    {
      assert i == 0 ==> f in imm + Union(levels);
    }
    UnionUnfold(ls);
    UnionUnfold(ls[1..]);
    assert ls[1..][1..] == levels;
  }

  lemma LayersAreNewerAbove(s: State)
    requires Shaped(s) && LayersOk(s)
    ensures NewerAbove(Layers(s))
    ensures Union(Layers(s)) == Stored(s)
  {
    Layered(s.mem, Immutable(s), s.levels);
  }

  lemma SubsetsAreDistinct(s: State, es: set<Entry>)
    requires HistoryOk(s) && es <= Range(s.history)
    ensures Distinct(es)
  {
  }

  // A step that touches nothing at or below the last sequence number.
  lemma ReadsKept(s: State, t: State)
    requires HistoryOk(s) && HistoryOk(t) && ReadsOk(s)
    requires Stored(s) <= Range(s.history) && Stored(t) <= Range(t.history)
    requires s.floor == t.floor && s.lastSequence == t.lastSequence
    requires forall e: Entry :: e.seqno <= s.lastSequence
               ==> (e in s.history <==> e in t.history) && (e in Stored(s) <==> e in Stored(t))
    ensures ReadsOk(t)
  {
    hide Stored;
    hide HistoryOk;
    SubsetsAreDistinct(s, Stored(s));
    SubsetsAreDistinct(s, Range(s.history));
    SubsetsAreDistinct(t, Stored(t));
    SubsetsAreDistinct(t, Range(t.history));
    forall k: Key, n: nat | t.floor <= n <= t.lastSequence
      ensures Lookup(Stored(t), k, n) == Lookup(Range(t.history), k, n)
    {
      hide ReadsOk;
      hide Lookup;
      SameBelow(Stored(s), Stored(t), k, n);
      SameBelow(Range(s.history), Range(t.history), k, n);
      ReadsAt(s, k, n);
    }
  }

  lemma ReadsAt(s: State, k: Key, n: nat)
    requires ReadsOk(s) && s.floor <= n <= s.lastSequence
    ensures Lookup(Stored(s), k, n) == Lookup(Range(s.history), k, n)
  {
  }

  // Two collections alike to readers stay alike under the same newer entries.
  lemma NewerOnTop(a: set<Entry>, b: set<Entry>, more: set<Entry>, last: nat, k: Key, n: nat)
    requires Distinct(a + more) && Distinct(b + more)
    requires forall e :: e in a + b ==> e.seqno <= last
    requires forall e :: e in more ==> e.seqno > last
    requires n <= last ==> Lookup(a, k, n) == Lookup(b, k, n)
    requires n > last ==> Lookup(a, k, last) == Lookup(b, k, last)
    ensures Lookup(a + more, k, n) == Lookup(b + more, k, n)
  {
    if Has(more, k, n) {
      var e :| e in more && e.key == k && e.seqno <= n;
      var f := NewestExists(more, k, n, e);
      assert Finds(a + more, k, n, f) && Finds(b + more, k, n, f);
      LookupFound(a + more, k, n, f);
      LookupFound(b + more, k, n, f);
    } else {
      var m := if n <= last then n else last;
      NothingNewer(a, more, last, k, n);
      NothingNewer(b, more, last, k, n);
    }
  }

  lemma NothingNewer(a: set<Entry>, more: set<Entry>, last: nat, k: Key, n: nat)
    requires Distinct(a + more) && !Has(more, k, n)
    requires forall e :: e in a ==> e.seqno <= last
    ensures Lookup(a + more, k, n) == Lookup(a, k, if n <= last then n else last)
  {
    var m := if n <= last then n else last;
    forall e: Entry
      ensures Finds(a + more, k, n, e) <==> Finds(a, k, m, e)
    {
    }
    if e :| Finds(a, k, m, e) {
      LookupFound(a, k, m, e);
      LookupFound(a + more, k, n, e);
    }
  }

  // A step that brings the whole pending group below the last sequence number.
  lemma ReadsGrow(s: State, t: State)
    requires HistoryOk(s) && HistoryOk(t) && ReadsOk(s)
    requires t.history == s.history && t.lastSequence == |s.history| && s.floor == t.floor
    requires Stored(s) <= Range(s.history) && Stored(t) == Stored(s) + Range(Pending(s))
    ensures ReadsOk(t)
  {
    hide Stored;
    var more := Range(Pending(s));
    var a := set e | e in Stored(s) && e.seqno <= s.lastSequence;
    var b := Range(s.history[..s.lastSequence]);
    PendingIsNewer(s);
    assert Stored(t) == a + more;
    assert Range(s.history) == b + more;
    SubsetsAreDistinct(s, a + more);
    SubsetsAreDistinct(s, b + more);
    SubsetsAreDistinct(s, Stored(s));
    forall k: Key, n: nat | t.floor <= n <= t.lastSequence
      ensures Lookup(Stored(t), k, n) == Lookup(Range(t.history), k, n)
    {
      hide ReadsOk;
      hide Lookup;
      hide HistoryOk;
      var m := if n <= s.lastSequence then n else s.lastSequence;
      SameBelow(a, Stored(s), k, m);
      SameBelow(b, Range(s.history), k, m);
      ReadsAt(s, k, m);
      NewerOnTop(a, b, more, s.lastSequence, k, n);
    }
  }

  lemma PendingIsNewer(s: State)
    requires HistoryOk(s)
    ensures |s.history| == s.lastSequence + |Pending(s)|
    ensures Range(s.history) == Range(s.history[..s.lastSequence]) + Range(Pending(s))
    ensures forall e :: e in Range(s.history[..s.lastSequence]) ==> e.seqno <= s.lastSequence
    ensures forall e :: e in Range(Pending(s)) ==> e.seqno > s.lastSequence
  {
    var n := s.lastSequence;
    assert s.history == s.history[..n] + s.history[n..];
    assert forall i :: 0 <= i < |s.history| - n ==> s.history[n..][i] == s.history[n + i];
  }

  // ----- What the steps do to the logs -----

  lemma LogEntriesAppend(log: seq<Batch>, b: Batch)
    ensures LogEntries(log + [b]) == LogEntries(log) + Range(Numbered(b))
  {
    forall e | e in LogEntries(log) + Range(Numbered(b))
      ensures e in LogEntries(log + [b])
    {
      if e in LogEntries(log) {
        var c :| c in log && e in Numbered(c);
        assert c in log + [b];
      } else {
        assert b in log + [b];
      }
    }
  }

  lemma ReplayedUpdate(logs: Logs, from: nat, n: nat, log: seq<Batch>)
    requires n >= from
    requires n in logs ==> LogEntries(logs[n]) <= LogEntries(log)
    ensures Replayed(logs[n := log], from) == Replayed(logs, from) + LogEntries(log)
  {
    var after := logs[n := log];
    forall e | e in Replayed(logs, from) + LogEntries(log)
      ensures e in Replayed(after, from)
    {
      if e in LogEntries(log) {
        assert n in after;
      } else {
        var m :| m in logs && m >= from && e in LogEntries(logs[m]);
        assert m in after;
      }
    }
    forall e | e in Replayed(after, from)
      ensures e in Replayed(logs, from) + LogEntries(log)
    {
      var m :| m in after && m >= from && e in LogEntries(after[m]);
      assert m != n ==> m in logs;
    }
  }

  // ----- Every step keeps the invariant -----

  lemma SameWork(s: State, t: State)
    requires Shaped(s) && Shaped(t) && WorkOk(s)
    requires s.work == t.work && s.floor == t.floor && s.lastSequence <= t.lastSequence && s.snapshots == t.snapshots
    requires s.levels == t.levels
    ensures WorkOk(t)
  {
    hide CleanCut;
  }

  lemma SameSnapshots(s: State, t: State)
    requires SnapshotsOk(s) && s.floor == t.floor && s.lastSequence <= t.lastSequence && s.snapshots == t.snapshots
    ensures SnapshotsOk(t)
  {
  }

  lemma SameHistory(s: State, t: State)
    requires HistoryOk(s) && t.history == s.history && t.lastSequence == s.lastSequence
    requires Pending(t) == Pending(s)
    ensures HistoryOk(t)
  {
  }

  lemma InsideHistory(s: State)
    requires Shaped(s) && LayersOk(s)
    ensures Stored(s) <= Range(s.history)
  {
  }

  lemma LogGroupHistory(s: State, ops: seq<Write>)
    requires Enabled(s, LogGroup(ops)) && HistoryOk(s)
    ensures HistoryOk(Apply(s, LogGroup(ops)))
    ensures |s.history| == s.lastSequence
  {
    var t := Apply(s, LogGroup(ops));
    assert s.history[s.lastSequence..] == [];
    assert t.history[t.lastSequence..] == Pending(t);
  }

  lemma LoggedOne(s: State, t: State, b: Batch)
    requires Shaped(s) && Shaped(t) && LogsOk(s) && s.pending.None? && b.sequence == |s.history| + 1
    requires t.history == s.history + Numbered(b) && t.lastSequence == s.lastSequence && t.pending == Some(Group(b, 0))
    requires t.mem == s.mem && t.imm == s.imm && t.logs == s.logs[s.logNumber := s.logs[s.logNumber] + [b]]
    requires t.logNumber == s.logNumber && t.nextFile == s.nextFile && t.manifestLog == s.manifestLog
    requires t.manifestSequence == s.manifestSequence
    ensures LogsOk(t)
  {
    hide LogEntries;
    hide Replayed;
    LogEntriesAppend(s.logs[s.logNumber], b);
    ReplayedUpdate(s.logs, s.manifestLog, s.logNumber, s.logs[s.logNumber] + [b]);
    assert Last(b) == |t.history|;
    assert forall n, c :: n in t.logs && c in t.logs[n] ==> c == b || (n in s.logs && c in s.logs[n]);
    assert Replayed(t.logs, t.manifestLog) == t.mem + Range(Pending(t)) + Immutable(t);
  }

  lemma LogGroupLogs(s: State, ops: seq<Write>)
    requires Enabled(s, LogGroup(ops)) && LogsOk(s) && |s.history| == s.lastSequence
    ensures LogsOk(Apply(s, LogGroup(ops)))
  {
    hide LogsOk;
    LoggedOne(s, Apply(s, LogGroup(ops)), Batch(s.lastSequence + 1, ops));
  }

  lemma LogGroupLayers(s: State, ops: seq<Write>)
    requires Enabled(s, LogGroup(ops)) && LayersOk(s)
    ensures LayersOk(Apply(s, LogGroup(ops)))
  {
    hide Union;
    hide NewerAbove;
    hide Older;
    var t := Apply(s, LogGroup(ops));
    assert Inserted(t) == {};
    assert Stored(t) == Stored(s);
  }

  lemma LogGroupKeeps(s: State, ops: seq<Write>)
    requires Inv(s) && Enabled(s, LogGroup(ops))
    ensures Inv(Apply(s, LogGroup(ops)))
  {
    var t := Apply(s, LogGroup(ops));
    assert Stored(t) == Stored(s) <= Range(s.history);
    hide LayersOk;
    hide ReadsOk;
    hide LogsOk;
    hide WorkOk;
    hide SnapshotsOk;
    hide Stored;
    LogGroupHistory(s, ops);
    LogGroupLayers(s, ops);
    LogGroupLogs(s, ops);
    ReadsKept(s, t);
    SameSnapshots(s, t);
    SameWork(s, t);
  }

  lemma OneMoreInMem(s: State, t: State, e: Entry)
    requires Shaped(s) && Shaped(t) && LayersOk(s) && e in Range(s.history) && e.seqno > s.lastSequence
    requires t.history == s.history && t.lastSequence == s.lastSequence && t.levels == s.levels && t.imm == s.imm
    requires t.mem == s.mem + {e} && Inserted(t) == Inserted(s) + {e}
    ensures LayersOk(t) && Stored(t) == Stored(s) + {e}
  {
    hide Union;
    hide NewerAbove;
    hide Inserted;
    assert Stored(t) == Stored(s) + {e};
  }

  lemma InsertLayers(s: State)
    requires Enabled(s, Insert) && HistoryOk(s) && LayersOk(s)
    ensures LayersOk(Apply(s, Insert))
    ensures forall e: Entry :: e.seqno <= s.lastSequence ==> (e in Stored(s) <==> e in Stored(Apply(s, Insert)))
  {
    hide LayersOk;
    hide Stored;
    var t := Apply(s, Insert);
    var n := s.pending.value.inserted;
    var e := Pending(s)[n];
    PendingIsNewer(s);
    hide HistoryOk;
    assert Pending(s)[..n + 1] == Pending(s)[..n] + [e];
    assert e in Range(Pending(s));
    OneMoreInMem(s, t, e);
  }

  lemma InsertLogs(s: State)
    requires Enabled(s, Insert) && LogsOk(s)
    ensures LogsOk(Apply(s, Insert))
  {
    hide LogEntries;
    hide Replayed;
    var t := Apply(s, Insert);
    assert t.mem + Range(Pending(t)) == s.mem + Range(Pending(s));
  }

  lemma InsertKeeps(s: State)
    requires Inv(s) && Enabled(s, Insert)
    ensures Inv(Apply(s, Insert))
  {
    var t := Apply(s, Insert);
    assert HistoryOk(t);
    InsertLayers(s);
    assert Stored(s) <= Range(s.history) && Stored(t) <= Range(t.history);
    hide LayersOk;
    hide ReadsOk;
    hide LogsOk;
    hide WorkOk;
    hide SnapshotsOk;
    hide HistoryOk;
    hide Stored;
    InsertLogs(s);
    ReadsKept(s, t);
    SameSnapshots(s, t);
    SameWork(s, t);
  }

  lemma PublishHistory(s: State)
    requires Enabled(s, Publish) && HistoryOk(s)
    ensures HistoryOk(Apply(s, Publish)) && Apply(s, Publish).lastSequence == |s.history|
  {
    var t := Apply(s, Publish);
    PendingIsNewer(s);
    assert t.history[t.lastSequence..] == [];
  }

  lemma PublishedLayers(s: State, t: State)
    requires Shaped(s) && Shaped(t) && HistoryOk(s) && LayersOk(s) && Inserted(s) == Range(Pending(s))
    requires t.history == s.history && t.lastSequence == |s.history| && t.pending.None?
    requires t.mem == s.mem && t.imm == s.imm && t.levels == s.levels
    ensures LayersOk(t)
    ensures Range(Pending(s)) <= s.mem
    ensures Stored(t) == Stored(s) + Range(Pending(s))
  {
    hide Union;
    hide NewerAbove;
    hide Older;
    assert Inserted(t) == {};
    hide Inserted;
    PendingIsNewer(s);
    assert forall e :: e in Range(s.history) ==> e.seqno <= |s.history|;
    hide HistoryOk;
  }

  lemma PublishLayers(s: State)
    requires Enabled(s, Publish) && HistoryOk(s) && LayersOk(s)
    ensures LayersOk(Apply(s, Publish))
    ensures Range(Pending(s)) <= s.mem
    ensures Stored(Apply(s, Publish)) == Stored(s) + Range(Pending(s))
  {
    hide LayersOk;
    hide Stored;
    PendingIsNewer(s);
    hide HistoryOk;
    assert Pending(s)[..|Pending(s)|] == Pending(s);
    PublishedLayers(s, Apply(s, Publish));
  }

  lemma PublishLogs(s: State)
    requires Enabled(s, Publish) && LogsOk(s) && Range(Pending(s)) <= s.mem
    ensures LogsOk(Apply(s, Publish))
  {
    hide LogEntries;
    hide Replayed;
    var t := Apply(s, Publish);
    assert t.mem + Range(Pending(t)) == s.mem + Range(Pending(s));
  }

  lemma PublishKeeps(s: State)
    requires Inv(s) && Enabled(s, Publish)
    ensures Inv(Apply(s, Publish))
  {
    hide LayersOk;
    hide ReadsOk;
    hide LogsOk;
    hide WorkOk;
    hide SnapshotsOk;
    hide HistoryOk;
    hide Stored;
    var t := Apply(s, Publish);
    PublishHistory(s);
    PublishLayers(s);
    InsideHistory(s);
    PublishLogs(s);
    ReadsGrow(s, t);
    SameSnapshots(s, t);
    SameWork(s, t);
  }

  lemma SwitchLogs(s: State)
    requires Enabled(s, SwitchMemTable) && LogsOk(s)
    ensures LogsOk(Apply(s, SwitchMemTable))
  {
    hide Replayed;
    ReplayedUpdate(s.logs, s.manifestLog, s.nextFile, []);
  }

  lemma SwitchLayers(s: State)
    requires Enabled(s, SwitchMemTable) && LayersOk(s)
    ensures LayersOk(Apply(s, SwitchMemTable))
  {
    hide Union;
    hide NewerAbove;
  }

  lemma SwitchKeeps(s: State)
    requires Inv(s) && Enabled(s, SwitchMemTable)
    ensures Inv(Apply(s, SwitchMemTable))
  {
    var t := Apply(s, SwitchMemTable);
    assert HistoryOk(t);
    assert Stored(t) == Stored(s) <= Range(s.history);
    hide LayersOk;
    hide ReadsOk;
    hide LogsOk;
    hide WorkOk;
    hide SnapshotsOk;
    hide HistoryOk;
    hide Stored;
    SwitchLogs(s);
    SwitchLayers(s);
    ReadsKept(s, t);
    SameSnapshots(s, t);
    SameWork(s, t);
  }

  lemma FlushLayers(s: State, level: nat)
    requires Enabled(s, Flush(level)) && LayersOk(s)
    ensures LayersOk(Apply(s, Flush(level)))
    ensures Stored(Apply(s, Flush(level))) == Stored(s)
  {
    var t := Apply(s, Flush(level));
    UnionAdd(s.levels, level, s.imm.value);
    NewerAboveAdded(s.levels, level, s.imm.value);
    hide Union;
    hide NewerAbove;
    assert Stored(t) == Stored(s);
  }

  // Once the older logs are deleted, only the current one is replayed.
  lemma OnlyTheLast(logs: Logs, n: nat, left: Logs)
    requires n in logs && forall m :: m in logs ==> m <= n
    requires left == map m | m in logs && m >= n :: logs[m]
    ensures Replayed(left, n) == LogEntries(logs[n])
  {
    hide LogEntries;
    forall e | e in LogEntries(logs[n])
      ensures e in Replayed(left, n)
    {
      assert n in left;
    }
    forall e | e in Replayed(left, n)
      ensures e in LogEntries(logs[n])
    {
      var m :| m in left && m >= n && e in LogEntries(left[m]);
    }
  }

  lemma NewestAreLogged(s: State)
    requires HistoryOk(s)
    ensures forall e: Entry :: e in s.history && e.seqno > s.lastSequence ==> e in Range(Pending(s))
  {
    PendingIsNewer(s);
    forall e: Entry | e in s.history && e.seqno > s.lastSequence
      ensures e in Range(Pending(s))
    {
      assert e in Range(s.history);
    }
  }

  lemma FlushedLogs(s: State, t: State)
    requires Shaped(s) && Shaped(t) && HistoryOk(s) && LogsOk(s)
    requires t.history == s.history && t.lastSequence == s.lastSequence && t.pending == s.pending && t.mem == s.mem
    requires t.imm.None?
    requires t.logs == LogsFrom(s.logs, s.logNumber) && t.logNumber == s.logNumber && t.nextFile == s.nextFile
    requires t.manifestLog == s.logNumber && t.manifestSequence == s.lastSequence
    ensures LogsOk(t)
  {
    hide LogEntries;
    hide Replayed;
    NewestAreLogged(s);
    hide HistoryOk;
    OnlyTheLast(s.logs, s.logNumber, t.logs);
    assert Pending(t) == Pending(s);
    assert t.logs[t.logNumber] == s.logs[s.logNumber];
    assert Replayed(t.logs, t.manifestLog) == s.mem + Range(Pending(s));
  }

  lemma FlushLogs(s: State, level: nat)
    requires Enabled(s, Flush(level)) && HistoryOk(s) && LogsOk(s)
    ensures LogsOk(Apply(s, Flush(level)))
  {
    hide LogsOk;
    hide HistoryOk;
    assert s.logNumber in LogsFrom(s.logs, s.logNumber);
    FlushedLogs(s, Apply(s, Flush(level)));
  }

  // A new table does not spoil the cut of a compaction under way.
  lemma CutStaysClean(levels: seq<set<Entry>>, level: nat, file: set<Entry>, w: Work)
    requires w.level + 1 < |levels| && level < |levels| && CleanCut(levels, w) && Older(Union(levels), file)
    requires w.upper <= levels[w.level] && w.lower <= levels[w.level + 1]
    requires level == 0 || forall j, e, f :: 0 <= j <= level && e in levels[j] && f in file ==> e.key != f.key
    ensures CleanCut(levels[level := levels[level] + file], w)
  {
    forall e | e in w.upper + w.lower
      ensures e in Union(levels)
    {
      InUnion(levels, if e in w.upper then w.level else w.level + 1, e);
    }
    hide Union;
  }

  lemma FlushWork(s: State, level: nat)
    requires Enabled(s, Flush(level)) && LayersOk(s) && WorkOk(s)
    ensures WorkOk(Apply(s, Flush(level)))
  {
    assert Older(Union(s.levels), s.imm.value);
    hide LayersOk;
    hide Union;
    hide CleanCut;
    if s.work.Some? {
      CutStaysClean(s.levels, level, s.imm.value, s.work.value);
    }
  }

  lemma FlushKeeps(s: State, level: nat)
    requires Inv(s) && Enabled(s, Flush(level))
    ensures Inv(Apply(s, Flush(level)))
  {
    hide LayersOk;
    hide ReadsOk;
    hide LogsOk;
    hide WorkOk;
    hide SnapshotsOk;
    hide HistoryOk;
    hide Stored;
    var t := Apply(s, Flush(level));
    SameHistory(s, t);
    InsideHistory(s);
    FlushWork(s, level);
    FlushLayers(s, level);
    FlushLogs(s, level);
    ReadsKept(s, t);
    SameSnapshots(s, t);
  }

  lemma SameLayers(s: State, t: State)
    requires Shaped(s) && Shaped(t) && LayersOk(s)
    requires t.history == s.history && t.lastSequence == s.lastSequence && t.pending == s.pending
    requires t.mem == s.mem && t.imm == s.imm && t.levels == s.levels
    ensures LayersOk(t) && Stored(t) == Stored(s)
  {
    hide Union;
    hide NewerAbove;
    hide Older;
    assert Stored(t) == Stored(s);
    assert Inserted(t) == Inserted(s);
  }

  lemma SameReads(s: State, t: State)
    requires ReadsOk(s) && Stored(t) == Stored(s)
    requires t.history == s.history && t.lastSequence == s.lastSequence && t.floor == s.floor
    ensures ReadsOk(t)
  {
    hide Lookup;
    hide Stored;
  }

  lemma SameLogs(s: State, t: State)
    requires Shaped(s) && Shaped(t) && LogsOk(s)
    requires t.history == s.history && t.lastSequence == s.lastSequence && t.pending == s.pending
    requires t.mem == s.mem && t.imm == s.imm && t.logs == s.logs && t.logNumber == s.logNumber
    requires t.nextFile == s.nextFile && t.manifestLog == s.manifestLog && t.manifestSequence == s.manifestSequence
    ensures LogsOk(t)
  {
    hide LogEntries;
    hide Replayed;
  }

  lemma SnapshotsAndWork(s: State, a: Action)
    requires Enabled(s, a) && SnapshotsOk(s) && WorkOk(s) && s.floor <= s.lastSequence
    requires a.GetSnapshot? || a.ReleaseSnapshot? || a.StartCompaction?
    ensures SnapshotsOk(Apply(s, a)) && WorkOk(Apply(s, a))
  {
    hide CleanCut;
    var t := Apply(s, a);
    assert t.levels == s.levels && t.floor == s.floor && t.lastSequence == s.lastSequence;
    assert forall n :: n in t.snapshots ==> n in s.snapshots || n == s.lastSequence;
    if a.StartCompaction? {
      assert t.work == Some(a.work) && t.snapshots == s.snapshots;
    } else {
      assert t.work == s.work;
    }
    hide Enabled;
    hide Apply;
  }

  lemma SnapshotStepsKeep(s: State, a: Action)
    requires Inv(s) && Enabled(s, a) && (a.GetSnapshot? || a.ReleaseSnapshot? || a.StartCompaction?)
    ensures Inv(Apply(s, a))
  {
    hide CleanCut;
    hide LayersOk;
    hide LogsOk;
    hide ReadsOk;
    hide WorkOk;
    hide SnapshotsOk;
    hide HistoryOk;
    var t := Apply(s, a);
    FloorOk(s);
    SnapshotsAndWork(s, a);
    SameHistory(s, t);
    SameLayers(s, t);
    SameReads(s, t);
    SameLogs(s, t);
  }

  // What a compaction does to the levels, the trivial one included.
  lemma InstalledLevels(s: State, w: Work, outputs: set<Entry>, levels: seq<set<Entry>>)
    requires Shaped(s) && LayersOk(s) && w.level + 1 < |s.levels|
    requires w.upper <= s.levels[w.level] && w.lower <= s.levels[w.level + 1]
    requires CleanCut(s.levels, w) && outputs <= w.upper + w.lower
    requires levels == Installed(s.levels, w, outputs)
    ensures LayersOk(s.(levels := levels))
    ensures Stored(s.(levels := levels)) == Stored(s) - (w.upper + w.lower) + outputs
    ensures w.upper + w.lower <= Stored(s)
  {
    var t := s.(levels := levels);
    UnionOfInstalled(s.levels, w, outputs);
    forall e | e in w.upper + w.lower
      ensures e in Union(s.levels)
    {
      InUnion(s.levels, if e in w.upper then w.level else w.level + 1, e);
    }
    assert NewerAbove(levels) by {
      NewerAboveInstalled(s.levels, w, outputs);
    }
    hide Union;
    hide NewerAbove;
    hide CleanCut;
    assert Union(levels) <= Union(s.levels);
    assert Stored(t) == Stored(s) - (w.upper + w.lower) + outputs;
  }

  lemma NewerAboveInstalled(levels: seq<set<Entry>>, w: Work, outputs: set<Entry>)
    requires NewerAbove(levels) && w.level + 1 < |levels|
    requires w.upper <= levels[w.level] && w.lower <= levels[w.level + 1]
    requires CleanCut(levels, w) && outputs <= w.upper + w.lower
    ensures NewerAbove(Installed(levels, w, outputs))
  {
    var after := Installed(levels, w, outputs);
    forall i, j, e: Entry, f: Entry | 0 <= i < j < |after| && e in after[i] && f in after[j] && e.key == f.key
      ensures e.seqno > f.seqno
    {
      assert e in outputs ==> e in levels[w.level] || e in levels[w.level + 1];
      assert f in outputs ==> f in levels[w.level] || f in levels[w.level + 1];
    }
  }

  // Older entries of an input's key outside the inputs lie further down, and then
  // the key is not taken to be at its base level.
  lemma OlderIsNotBase(s: State, w: Work, e: Entry, o: Entry)
    requires Shaped(s) && LayersOk(s) && w.level + 1 < |s.levels|
    requires w.upper <= s.levels[w.level] && w.lower <= s.levels[w.level + 1]
    requires CleanCut(s.levels, w)
    requires e in w.upper + w.lower && o in Stored(s) - (w.upper + w.lower) && e.key == o.key && o.seqno <= e.seqno
    ensures e.key !in w.base
  {
    var l := if e in w.upper then w.level else w.level + 1;
    InUnion(s.levels, l, e);
    assert o !in s.mem + Immutable(s);
    var j :| 0 <= j < |s.levels| && o in s.levels[j];
  }

  // A clean cut is what makes dropping deletions safe.
  lemma CleanCutIsSafe(s: State, w: Work)
    requires Shaped(s) && LayersOk(s) && w.level + 1 < |s.levels|
    requires w.upper <= s.levels[w.level] && w.lower <= s.levels[w.level + 1]
    requires CleanCut(s.levels, w)
    ensures DeletionsAreSafe(w.upper + w.lower, Stored(s) - (w.upper + w.lower), w.smallest, w.base)
  {
    hide CleanCut;
    hide LayersOk;
    var others := Stored(s) - (w.upper + w.lower);
    forall n, o
      ensures !Resurrects(w.upper + w.lower, others, w.smallest, w.base, n, o)
    {
      if n in w.upper + w.lower && Finds(others, n.key, n.seqno, o) {
        OlderIsNotBase(s, w, n, o);
      }
    }
  }

  lemma MergedReads(s: State, t: State, w: Work)
    requires Shaped(s) && HistoryOk(s) && ReadsOk(s) && Stored(s) <= Range(s.history)
    requires t.history == s.history && t.lastSequence == s.lastSequence && t.floor == w.smallest
    requires s.floor <= w.smallest <= s.lastSequence
    requires Stored(t) == Stored(s) - (w.upper + w.lower) + Outputs(w) && w.upper + w.lower <= Stored(s)
    requires DeletionsAreSafe(w.upper + w.lower, Stored(s) - (w.upper + w.lower), w.smallest, w.base)
    ensures ReadsOk(t)
  {
    hide Stored;
    hide Lookup;
    hide Kept;
    hide DeletionsAreSafe;
    var input := w.upper + w.lower;
    var others := Stored(s) - input;
    assert input + others == Stored(s) && Stored(t) == Outputs(w) + others;
    SubsetsAreDistinct(s, Stored(s));
    hide HistoryOk;
    forall k: Key, n: nat | t.floor <= n <= t.lastSequence
      ensures Lookup(Stored(t), k, n) == Lookup(Range(t.history), k, n)
    {
      DropsAreUnseen(input, others, w.smallest, w.base, k, n);
      ReadsAt(s, k, n);
    }
  }

  lemma FinishReads(s: State)
    requires Enabled(s, FinishCompaction) && HistoryOk(s) && LayersOk(s) && ReadsOk(s) && WorkOk(s)
    requires Stored(Apply(s, FinishCompaction))
        == Stored(s) - (s.work.value.upper + s.work.value.lower) + Outputs(s.work.value)
    requires s.work.value.upper + s.work.value.lower <= Stored(s)
    ensures ReadsOk(Apply(s, FinishCompaction))
  {
    hide LayersOk;
    hide ReadsOk;
    hide HistoryOk;
    hide CleanCut;
    hide Stored;
    hide DeletionsAreSafe;
    CleanCutIsSafe(s, s.work.value);
    InsideHistory(s);
    MergedReads(s, Apply(s, FinishCompaction), s.work.value);
  }

  // A manifest record with the last sequence number of the day.
  lemma ManifestAdvances(s: State, t: State)
    requires Shaped(s) && Shaped(t) && HistoryOk(s) && LogsOk(s)
    requires t.manifestSequence == s.lastSequence == t.lastSequence && t.history == s.history && t.pending == s.pending
    requires t.logs == s.logs && t.logNumber == s.logNumber && t.manifestLog == s.manifestLog
    requires t.nextFile == s.nextFile
    requires t.mem == s.mem && t.imm == s.imm
    ensures LogsOk(t)
  {
    hide LogEntries;
    hide Replayed;
    NewestAreLogged(s);
    hide HistoryOk;
    assert Pending(t) == Pending(s) && Immutable(t) == Immutable(s);
  }

  lemma FinishKeeps(s: State)
    requires Inv(s) && Enabled(s, FinishCompaction)
    ensures Inv(Apply(s, FinishCompaction))
  {
    hide CleanCut;
    hide Outputs;
    hide Installed;
    var t := Apply(s, FinishCompaction);
    var w := s.work.value;
    assert HistoryOk(t) && SnapshotsOk(t);
    OutputsAreInputs(w);
    hide LayersOk;
    InstalledLevels(s, w, Outputs(w), t.levels);
    SameLayers(s.(levels := t.levels), t);
    FinishReads(s);
    hide ReadsOk;
    ManifestAdvances(s, t);
  }

  lemma OutputsAreInputs(w: Work)
    ensures Outputs(w) <= w.upper + w.lower
  {
  }

  lemma MoveLayers(s: State, level: nat, file: set<Entry>)
    requires Enabled(s, TrivialMove(level, file)) && LayersOk(s)
    ensures LayersOk(Apply(s, TrivialMove(level, file)))
    ensures Stored(Apply(s, TrivialMove(level, file))) == Stored(s) <= Range(s.history)
  {
    hide CleanCut;
    hide Installed;
    var t := Apply(s, TrivialMove(level, file));
    assert Stored(s) <= Range(s.history);
    hide LayersOk;
    hide Stored;
    InstalledLevels(s, Move(level, file), file, t.levels);
    SameLayers(s.(levels := t.levels), t);
  }

  lemma NoWork(t: State)
    requires Shaped(t) && t.work.None?
    ensures WorkOk(t)
  {
  }

  lemma MoveKeeps(s: State, level: nat, file: set<Entry>)
    requires Inv(s) && Enabled(s, TrivialMove(level, file))
    ensures Inv(Apply(s, TrivialMove(level, file)))
  {
    hide CleanCut;
    hide Installed;
    hide LayersOk;
    hide ReadsOk;
    hide LogsOk;
    hide SnapshotsOk;
    hide WorkOk;
    hide HistoryOk;
    hide Stored;
    var t := Apply(s, TrivialMove(level, file));
    SameHistory(s, t);
    MoveLayers(s, level, file);
    ReadsKept(s, t);
    SameSnapshots(s, t);
    ManifestAdvances(s, t);
    NoWork(t);
  }

  // After a crash the last sequence number is that of the last logged entry.
  lemma RecoveredSequence(s: State)
    requires Shaped(s) && HistoryOk(s) && LogsOk(s)
    ensures Highest(Batches(s.logs, s.manifestLog), s.manifestSequence) == |s.history|
  {
    var bs := Batches(s.logs, s.manifestLog);
    if |s.history| > s.manifestSequence {
      var e := s.history[|s.history| - 1];
      assert e in s.history && e in Replayed(s.logs, s.manifestLog);
      var n :| n in s.logs && n >= s.manifestLog && e in LogEntries(s.logs[n]);
      var b :| b in s.logs[n] && e in Numbered(b);
      assert b in bs;
    }
  }

  lemma CrashLogs(s: State)
    requires Enabled(s, CrashAndReopen)
    requires Highest(Batches(s.logs, s.manifestLog), s.manifestSequence) == |s.history|
    requires HistoryOk(s)
    ensures LogsOk(Apply(s, CrashAndReopen)) && HistoryOk(Apply(s, CrashAndReopen))
  {
    var t := Apply(s, CrashAndReopen);
    assert t.history[t.lastSequence..] == [];
    assert LogEntries([]) == {};
    assert Replayed(t.logs, t.manifestLog) == {};
  }

  lemma OnlyTables(t: State)
    requires Shaped(t) && t.mem == {} && t.imm.None? && t.pending.None? && HistoryOk(t) && t.lastSequence == |t.history|
    requires NewerAbove(t.levels) && Union(t.levels) <= Range(t.history)
    ensures LayersOk(t)
  {
    hide Union;
    hide NewerAbove;
    assert Stored(t) == Union(t.levels);
    assert forall e :: e in Range(t.history) ==> e.seqno <= |t.history|;
    hide HistoryOk;
  }

  lemma ReplayedLayers(s: State, t: State)
    requires Shaped(s) && HistoryOk(s) && LayersOk(s) && t.history == s.history
    requires |t.levels| == NUM_LEVELS
    requires t.levels == s.levels[0 := s.levels[0] + (s.mem + Range(Pending(s)) + Immutable(s))]
    ensures NewerAbove(t.levels)
    ensures Union(t.levels) == Stored(s) + Range(Pending(s)) <= Range(t.history)
  {
    var replayed := s.mem + Range(Pending(s)) + Immutable(s);
    PendingIsNewer(s);
    hide HistoryOk;
    UnionAdd(s.levels, 0, replayed);
    hide Union;
    hide NewerAbove;
    hide Inserted;
    assert Older(Union(s.levels), replayed);
    NewerAboveAdded(s.levels, 0, replayed);
  }

  lemma CrashBasis(s: State)
    requires Inv(s)
    ensures Replayed(s.logs, s.manifestLog) == s.mem + Range(Pending(s)) + Immutable(s)
    ensures Highest(Batches(s.logs, s.manifestLog), s.manifestSequence) == |s.history|
    ensures Stored(s) <= Range(s.history)
  {
    hide Replayed;
    hide Union;
    hide LogEntries;
    RecoveredSequence(s);
  }

  lemma CrashReads(s: State, t: State)
    requires Inv(s) && Shaped(t) && HistoryOk(t) && t.history == s.history && t.lastSequence == |s.history|
    requires t.floor == s.floor
    requires t.levels == s.levels[0 := s.levels[0] + (s.mem + Range(Pending(s)) + Immutable(s))]
    requires t.mem == {} && t.imm.None? && t.pending.None?
    ensures LayersOk(t) && ReadsOk(t)
  {
    hide LogsOk;
    hide LayersOk;
    hide ReadsOk;
    hide WorkOk;
    hide SnapshotsOk;
    hide Union;
    hide NewerAbove;
    hide HistoryOk;
    ReplayedLayers(s, t);
    CrashBasis(s);
    assert Stored(t) == Union(t.levels);
    hide Stored;
    OnlyTables(t);
    ReadsGrow(s, t);
  }

  lemma CrashIdle(t: State)
    requires Shaped(t) && t.snapshots == multiset{} && t.work.None?
    ensures SnapshotsOk(t) && WorkOk(t)
  {
  }

  lemma CrashKeeps(s: State)
    requires Inv(s) && Enabled(s, CrashAndReopen)
    ensures Inv(Apply(s, CrashAndReopen))
  {
    hide LogsOk;
    hide LayersOk;
    hide ReadsOk;
    hide WorkOk;
    hide SnapshotsOk;
    hide HistoryOk;
    hide Replayed;
    hide Highest;
    hide Stored;
    var t := Apply(s, CrashAndReopen);
    CrashBasis(s);
    CrashLogs(s);
    CrashReads(s, t);
    CrashIdle(t);
  }

  lemma FloorOk(s: State)
    requires ReadsOk(s)
    ensures s.floor <= s.lastSequence
  {
  }

  lemma StepKeeps(s: State, a: Action)
    requires Inv(s) && Enabled(s, a)
    ensures Inv(Apply(s, a))
  {
    hide Inv;
    hide Enabled;
    match a
    case LogGroup(ops) => LogGroupKeeps(s, ops);
    case Insert => InsertKeeps(s);
    case Publish => PublishKeeps(s);
    case SwitchMemTable => SwitchKeeps(s);
    case Flush(level) => FlushKeeps(s, level);
    case FinishCompaction => FinishKeeps(s);
    case TrivialMove(level, file) => MoveKeeps(s, level, file);
    case CrashAndReopen => CrashKeeps(s);
    case _ => SnapshotStepsKeep(s, a);
  }

  // ----- Whole runs -----

  // A new database, its first log opened.
  function Opened(log: nat): State {
    State([], 0, {}, None, seq(NUM_LEVELS, _ => {}), multiset{}, None, None, map[log := []], log, log + 1, log, 0, 0)
  }

  lemma OpenedOk(log: nat)
    ensures Inv(Opened(log))
  {
    var s := Opened(log);
    assert Union(s.levels) == {};
    assert LogEntries([]) == {};
    assert Replayed(s.logs, log) == {};
    assert s.history[0..] == [];
  }

  ghost predicate Reaches(s: State, actions: seq<Action>, t: State)
    decreases |actions|
  {
    if actions == [] then s == t
    else Enabled(s, actions[0]) && Reaches(Apply(s, actions[0]), actions[1..], t)
  }

  lemma {:induction false} ReachesOneMore(s: State, actions: seq<Action>, t: State, a: Action, u: State)
    requires Reaches(s, actions, t) && Steps(t, a, u)
    ensures Reaches(s, actions + [a], u)
    decreases |actions|
  {
    hide Enabled;
    hide Apply;
    if actions == [] {
      assert [a][1..] == [];
    } else {
      TailOfSum(actions, [a]);
      ReachesOneMore(Apply(s, actions[0]), actions[1..], t, a, u);
    }
  }

  // What a reader may still ask about: the live snapshots and the present.
  ghost predicate Readable(s: State, n: nat) {
    n in s.snapshots || n == s.lastSequence
  }

  // Whatever was written, flushed, merged, moved, crashed and replayed, a read
  // layer by layer finds the newest entry of the whole history.
  lemma ReadsAreExact(s: State, k: Key, n: nat)
    requires Inv(s) && Readable(s, n)
    ensures Get(Layers(s), k, n) == Lookup(Range(s.history), k, n)
  {
    LayersAreNewerAbove(s);
    assert Stored(s) <= Range(s.history);
    SubsetsAreDistinct(s, Stored(s));
    hide Lookup;
    GetIsLookup(Layers(s), k, n);
    ReadsAt(s, k, n);
  }

  // And an iterator over all entries there are walks exactly the keys that have a
  // value in the history.
  lemma IteratorsAreExact(s: State, entries: seq<Entry>, n: nat)
    requires Inv(s) && Readable(s, n) && Range(entries) == Union(Layers(s))
    ensures Distinct(set e | e in entries)
    ensures forall k: Key ::
      var view := View((set e | e in entries), n);
      Lookup(Range(s.history), k, n) == if k in view then Some(view[k]) else None
  {
    var es := set e | e in entries;
    assert es == Union(Layers(s));
    LayersAreNewerAbove(s);
    assert Stored(s) <= Range(s.history);
    SubsetsAreDistinct(s, Stored(s));
    hide View;
    hide Lookup;
    forall k: Key
      ensures Lookup(Range(s.history), k, n) == if k in View(es, n) then Some(View(es, n)[k]) else None
    {
      ViewIsLookup(es, k, n);
      ReadsAt(s, k, n);
    }
  }

  ghost predicate Extends(s: State, t: State) {
    s.history <= t.history && s.lastSequence <= t.lastSequence && s.floor <= t.floor
  }

  lemma StepExtends(s: State, a: Action)
    requires Inv(s) && Enabled(s, a)
    ensures Extends(s, Apply(s, a))
  {
    hide LayersOk;
    hide ReadsOk;
    hide HistoryOk;
    hide LogsOk;
    if a.CrashAndReopen? {
      hide WorkOk;
      RecoveredSequence(s);
      PendingIsNewer(s);
    }
  }

  lemma {:induction false} RunKeeps(s: State, actions: seq<Action>, t: State)
    requires Inv(s) && Reaches(s, actions, t)
    ensures Inv(t) && Extends(s, t)
    decreases |actions|
  {
    hide Inv;
    hide Enabled;
    if actions != [] {
      StepKeeps(s, actions[0]);
      StepExtends(s, actions[0]);
      RunKeeps(Apply(s, actions[0]), actions[1..], t);
    }
  }

  // The theorem for databases: any run from creation.
  lemma EveryRunReadsExactly(log: nat, actions: seq<Action>, t: State, k: Key, n: nat)
    requires Reaches(Opened(log), actions, t) && Readable(t, n)
    ensures Get(Layers(t), k, n) == Lookup(Range(t.history), k, n)
  {
    hide Inv;
    hide Reaches;
    OpenedOk(log);
    RunKeeps(Opened(log), actions, t);
    ReadsAreExact(t, k, n);
  }

  // A snapshot taken before a run reads the same after it.
  lemma SnapshotsAreStable(s: State, actions: seq<Action>, t: State, k: Key, n: nat)
    requires Inv(s) && Reaches(s, actions, t) && Readable(s, n) && Readable(t, n)
    ensures Get(Layers(t), k, n) == Get(Layers(s), k, n)
  {
    RunKeeps(s, actions, t);
    ReadsAreExact(s, k, n);
    ReadsAreExact(t, k, n);
    SubsetsAreDistinct(s, Range(s.history));
    SubsetsAreDistinct(t, Range(t.history));
    assert n <= |s.history|;
    hide LayersOk;
    hide ReadsOk;
    hide LogsOk;
    forall e: Entry | e.seqno <= n
      ensures e in s.history <==> e in t.history
    {
    }
    SameBelow(Range(s.history), Range(t.history), k, n);
  }

  // ----- Readers at work -----

  lemma HistoryOf(s: State)
    requires Inv(s)
    ensures Shaped(s) && HistoryOk(s)
  {
  }

  function Added(s: State, a: Action): set<Entry>
    requires Shaped(s)
  {
    if a.Insert? && s.pending.Some? && s.pending.value.inserted < |Pending(s)|
    then {Pending(s)[s.pending.value.inserted]}
    else {}
  }

  // A reader holds on to the memtable it found; this is what writers put there
  // afterwards, until it is no longer the live one.
  ghost function Grown(s: State, actions: seq<Action>): set<Entry>
    decreases |actions|
  {
    if actions == [] || !Enabled(s, actions[0]) || actions[0].SwitchMemTable? || actions[0].CrashAndReopen? then {}
    else Added(s, actions[0]) + Grown(Apply(s, actions[0]), actions[1..])
  }

  lemma RangeOfPrefix(a: seq<Entry>, b: seq<Entry>)
    requires a <= b
    ensures Range(a) <= Range(b)
  {
    assert forall i :: 0 <= i < |a| ==> a[i] == b[i] && b[i] in b;
  }

  lemma AddedIsNewer(s: State, a: Action)
    requires Inv(s) && Enabled(s, a)
    ensures Added(s, a) <= Range(s.history) && forall e :: e in Added(s, a) ==> e.seqno > s.lastSequence
    ensures s.lastSequence <= Apply(s, a).lastSequence
  {
    hide Inv;
    hide Apply;
    hide Enabled;
    HistoryOf(s);
    StepExtends(s, a);
    PendingIsNewer(s);
    hide HistoryOk;
    assert forall i :: 0 <= i < |Pending(s)| ==> Pending(s)[i] in Range(Pending(s));
  }

  lemma {:induction false} GrownIsNewer(s: State, actions: seq<Action>, t: State)
    requires Inv(s) && Reaches(s, actions, t)
    ensures forall e :: e in Grown(s, actions) ==> e.seqno > s.lastSequence
    ensures Grown(s, actions) <= Range(t.history)
    decreases |actions|
  {
    hide Inv;
    hide Apply;
    hide Added;
    hide Range;
    hide Extends;
    if actions != [] {
      var a := actions[0];
      StepKeeps(s, a);
      AddedIsNewer(s, a);
      RunExtendsRange(s, actions, t);
      GrownIsNewer(Apply(s, a), actions[1..], t);
    }
  }

  lemma RunExtendsRange(s: State, actions: seq<Action>, t: State)
    requires Inv(s) && Reaches(s, actions, t)
    ensures Range(s.history) <= Range(t.history)
  {
    hide Inv;
    hide Reaches;
    RunKeeps(s, actions, t);
    RangeOfPrefix(s.history, t.history);
  }

  // Such a reader still sees the store as it was when it took its sequence
  // number, although the memtable it reads has grown meanwhile.
  lemma CapturedReadsAreExact(s: State, actions: seq<Action>, t: State, k: Key, n: nat)
    requires Inv(s) && Reaches(s, actions, t) && Readable(s, n)
    ensures Get([s.mem + Grown(s, actions), Immutable(s)] + s.levels, k, n) == Get(Layers(s), k, n)
  {
    var more := Grown(s, actions);
    GrownIsNewer(s, actions, t);
    RunKeeps(s, actions, t);
    LayersAreNewerAbove(s);
    CapturedLayers(s, more);
    assert Stored(s) <= Range(s.history) <= Range(t.history);
    SubsetsAreDistinct(t, Stored(s) + more);
    SubsetsAreDistinct(t, Stored(s));
    hide NewerAbove;
    hide Inv;
    GetIsLookup(Layers(s), k, n);
    GetIsLookup([s.mem + more, Immutable(s)] + s.levels, k, n);
    SameBelow(Stored(s), Stored(s) + more, k, n);
  }

  lemma CapturedLayers(s: State, more: set<Entry>)
    requires Shaped(s) && LayersOk(s) && forall e :: e in more ==> e.seqno > s.lastSequence
    ensures NewerAbove([s.mem + more, Immutable(s)] + s.levels)
    ensures Union([s.mem + more, Immutable(s)] + s.levels) == Stored(s) + more
  {
    hide Union;
    hide NewerAbove;
    Layered(s.mem + more, Immutable(s), s.levels);
  }

  // A reader's sequence number n splits a batch when it covers some of it only.
  predicate Splits(n: nat, b: Batch) {
    b.sequence <= n < Last(b)
  }

  ghost predicate AllOrNothing(s: State, b: Batch) {
    && (s.lastSequence >= Last(b) || (s.lastSequence < b.sequence && s.pending.Some? && s.pending.value.batch == b))
    && |s.history| >= Last(b)
    && forall n :: n in s.snapshots ==> !Splits(n, b)
  }

  lemma CrashForgets(s: State)
    requires Enabled(s, CrashAndReopen)
    ensures Apply(s, CrashAndReopen).snapshots == multiset{}
  {
    hide Highest;
    hide Batches;
    hide Replayed;
  }

  // Nothing else touches the pending group, and snapshots are of the moment.
  lemma OtherStepsKeepGroup(s: State, a: Action)
    requires Enabled(s, a) && !a.CrashAndReopen?
    ensures var t := Apply(s, a);
      && (forall n :: n in t.snapshots ==> n in s.snapshots || n == s.lastSequence)
      && (s.pending.Some? ==>
            || t.lastSequence == s.lastSequence + |s.pending.value.batch.ops|
            || (t.lastSequence == s.lastSequence && t.pending.Some? && t.pending.value.batch == s.pending.value.batch))
  {
    hide CleanCut;
    hide Installed;
    hide Outputs;
    hide LogsFrom;
    hide Numbered;
  }

  lemma AllOrNothingStep(s: State, a: Action, b: Batch)
    requires Inv(s) && Enabled(s, a) && AllOrNothing(s, b)
    ensures AllOrNothing(Apply(s, a), b)
  {
    hide Inv;
    hide Apply;
    hide Enabled;
    hide HistoryOk;
    HistoryOf(s);
    StepExtends(s, a);
    PendingIsNewer(s);
    hide Range;
    if a.CrashAndReopen? {
      CrashSequence(s);
      CrashForgets(s);
    } else {
      OtherStepsKeepGroup(s, a);
    }
  }

  // All or none of a group of writes is seen, by every reader, ever after.
  lemma {:induction false} GroupsAreAtomic(s: State, actions: seq<Action>, t: State, b: Batch)
    requires Inv(s) && Reaches(s, actions, t) && AllOrNothing(s, b)
    ensures forall n :: Readable(t, n) ==> !Splits(n, b)
    decreases |actions|
  {
    hide Inv;
    hide Enabled;
    if actions != [] {
      StepKeeps(s, actions[0]);
      hide Apply;
      AllOrNothingStep(s, actions[0], b);
      GroupsAreAtomic(Apply(s, actions[0]), actions[1..], t, b);
    }
  }

  lemma LoggedGroupsAreAtomic(s: State, ops: seq<Write>, actions: seq<Action>, t: State)
    requires Inv(s) && Reaches(s, [LogGroup(ops)] + actions, t)
    ensures forall n :: Readable(t, n) ==> !Splits(n, Batch(s.lastSequence + 1, ops))
  {
    var all := [LogGroup(ops)] + actions;
    var b := Batch(s.lastSequence + 1, ops);
    assert all[1..] == actions;
    LogGroupKeeps(s, ops);
    LogGroupHistory(s, ops);
    var u := Apply(s, LogGroup(ops));
    assert AllOrNothing(u, b) by {
      assert forall n :: n in s.snapshots ==> n <= s.lastSequence;
    }
    hide Inv;
    GroupsAreAtomic(u, actions, t, b);
  }

  // ----- Crashes -----

  // Reopening finds in the logs exactly what the memtables held, and the
  // pending group if it had been logged.
  lemma ReplayRebuildsMemtables(s: State)
    requires Inv(s)
    ensures Replayed(s.logs, s.manifestLog) == s.mem + Immutable(s) + Range(Pending(s))
    ensures Highest(Batches(s.logs, s.manifestLog), s.manifestSequence) == |s.history|
  {
    RecoveredSequence(s);
    hide Replayed;
    assert LogsOk(s);
  }

  lemma CrashSequence(s: State)
    requires Inv(s) && Enabled(s, CrashAndReopen)
    ensures Apply(s, CrashAndReopen).lastSequence == |s.history| && Apply(s, CrashAndReopen).history == s.history
  {
    hide Inv;
    hide Highest;
    ReplayRebuildsMemtables(s);
  }

  // So a crash loses nothing that was appended.
  lemma CrashLosesNothing(s: State, k: Key)
    requires Inv(s) && Enabled(s, CrashAndReopen)
    ensures var t := Apply(s, CrashAndReopen);
            t.lastSequence == |s.history|
            && Get(Layers(t), k, t.lastSequence) == Lookup(Range(s.history), k, |s.history|)
  {
    CrashSequence(s);
    CrashKeeps(s);
    var t := Apply(s, CrashAndReopen);
    hide Inv;
    hide Apply;
    hide Enabled;
    ReadsAreExact(t, k, t.lastSequence);
  }
}
