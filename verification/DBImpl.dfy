// The database object: the methods that carry out the steps of the store.
// Level 0 is kept as its files, newest first; the other levels are taken as one
// run each.
module DBImpls {
  import opened Basics
  import opened Compaction
  import opened Entries
  import opened Sequences
  import opened Store

  // ----- Order in the logs -----

  ghost predicate AllEarlier(a: seq<Batch>, b: seq<Batch>) {
    forall c, d :: c in a && d in b ==> Last(c) < d.sequence
  }

  ghost predicate Ordered(log: seq<Batch>) {
    forall i, j :: 0 <= i < j < |log| ==> Last(log[i]) < log[j].sequence
  }

  // Batches are logged in sequence order, from one log to the next too.
  ghost predicate LogsOrdered(logs: Logs) {
    && (forall n :: n in logs ==> Ordered(logs[n]))
    && (forall n, m :: n in logs && m in logs && n < m ==> AllEarlier(logs[n], logs[m]))
  }

  lemma LogAppend(log: seq<Batch>, b: Batch)
    requires Ordered(log) && AllEarlier(log, [b])
    ensures Ordered(log + [b])
    ensures forall a :: AllEarlier(a, log) && AllEarlier(a, [b]) ==> AllEarlier(a, log + [b])
  {
  }

  lemma AppendOrdered(logs: Logs, n: nat, b: Batch)
    requires LogsOrdered(logs) && n in logs && forall m :: m in logs ==> m <= n
    requires forall m, c :: m in logs && c in logs[m] ==> Last(c) < b.sequence
    ensures LogsOrdered(logs[n := logs[n] + [b]])
  {
    assert forall m :: m in logs ==> AllEarlier(logs[m], [b]);
    LogAppend(logs[n], b);
    hide Ordered;
    hide AllEarlier;
  }

  lemma FewerLogsOrdered(logs: Logs, after: Logs)
    requires LogsOrdered(logs)
    requires forall n :: n in after ==> after[n] == [] || (n in logs && after[n] == logs[n])
    ensures LogsOrdered(after)
  {
  }

  lemma LogOrderKept(s: State, a: Action)
    requires Inv(s) && Enabled(s, a) && LogsOrdered(s.logs)
    ensures LogsOrdered(Apply(s, a).logs)
  {
    hide LogsOrdered;
    if a.LogGroup? {
      LogGroupHistory(s, a.ops);
      LogsAreBounded(s);
      hide Inv;
      AppendOrdered(s.logs, s.logNumber, Batch(s.lastSequence + 1, a.ops));
    } else {
      hide Inv;
      LogsAfter(s, a);
      hide Apply;
      hide Enabled;
      FewerLogsOrdered(s.logs, Apply(s, a).logs);
    }
  }

  lemma LogsAfter(s: State, a: Action)
    requires Enabled(s, a) && !a.LogGroup?
    ensures forall n :: n in Apply(s, a).logs
              ==> Apply(s, a).logs[n] == [] || (n in s.logs && Apply(s, a).logs[n] == s.logs[n])
  {
    hide Replayed;
    hide Highest;
    hide Batches;
    hide Installed;
    hide Outputs;
    hide CleanCut;
    hide Numbered;
  }

  lemma LogsAreBounded(s: State)
    requires Inv(s)
    ensures forall n, b :: n in s.logs && b in s.logs[n] ==> Last(b) <= |s.history|
    ensures forall n :: n in s.logs ==> n <= s.logNumber
  {
  }

  // ----- Files of level 0 -----

  // The files that are no inputs of a compaction.
  function Remaining(files: seq<set<Entry>>, inputs: set<Entry>): seq<set<Entry>> {
    if files == [] then []
    else (if files[0] <= inputs then [] else [files[0]]) + Remaining(files[1..], inputs)
  }

  ghost predicate WholeFiles(files: seq<set<Entry>>, inputs: set<Entry>) {
    forall i :: 0 <= i < |files| ==> files[i] <= inputs || files[i] !! inputs
  }

  lemma {:induction false} RemainingFiles(files: seq<set<Entry>>, inputs: set<Entry>)
    requires NewerAbove(files) && WholeFiles(files, inputs)
    ensures NewerAbove(Remaining(files, inputs)) && Union(Remaining(files, inputs)) == Union(files) - inputs
  {
    if files == [] {
      assert Union(files) == {};
    } else {
      var rest := Remaining(files[1..], inputs);
      RemainingFiles(files[1..], inputs);
      UnionUnfold(files);
      if !(files[0] <= inputs) {
        FileOnTop(files[0], files[1..], rest);
      } else {
        assert Remaining(files, inputs) == rest;
      }
    }
  }

  lemma FileOnTop(file: set<Entry>, files: seq<set<Entry>>, rest: seq<set<Entry>>)
    requires NewerAbove([file] + files) && NewerAbove(rest) && Union(rest) <= Union(files)
    ensures NewerAbove([file] + rest) && Union([file] + rest) == file + Union(rest)
  {
    UnionUnfold([file] + rest);
    assert ([file] + rest)[1..] == rest;
    var after, before := [file] + rest, [file] + files;
    forall i, j, e: Entry, f: Entry | 0 <= i < j < |after| && e in after[i] && f in after[j] && e.key == f.key
      ensures e.seqno > f.seqno
    {
      assert f in rest[j - 1];
      if i > 0 {
        assert e in rest[i - 1];
      } else {
        assert f in Union(files);
        var m :| 0 <= m < |files| && f in files[m];
        assert before[m + 1] == files[m] && before[0] == file;
      }
    }
  }

  lemma NewFileOnTop(file: set<Entry>, files: seq<set<Entry>>)
    requires NewerAbove(files) && Older(Union(files), file)
    ensures NewerAbove([file] + files) && Union([file] + files) == Union(files) + file
  {
    UnionUnfold([file] + files);
    assert ([file] + files)[1..] == files;
    var after := [file] + files;
    forall i, j, e: Entry, f: Entry | 0 <= i < j < |after| && e in after[i] && f in after[j] && e.key == f.key
      ensures e.seqno > f.seqno
    {
      assert f in files[j - 1] && f in Union(files);
      assert i > 0 ==> e in files[i - 1];
    }
  }

  // ----- Memtables -----

  // MemTable::Get and the search in a table: the newest entry of the key at or
  // below the sequence number.
  method Search(es: set<Entry>, k: Key, n: nat) returns (found: bool, value: Option<Value>)
    requires Distinct(es)
    ensures found <==> Has(es, k, n)
    ensures value == Lookup(es, k, n)
  {
    var rest := es;
    var newest: Option<Entry> := None;
    while rest != {}
      invariant rest <= es
      invariant newest.Some? ==> newest.value in es - rest && newest.value.key == k && newest.value.seqno <= n
      invariant forall e :: e in es - rest && e.key == k && e.seqno <= n
                  ==> newest.Some? && e.seqno <= newest.value.seqno
      decreases |rest|
    {
      var e :| e in rest;
      rest := rest - {e};
      if e.key == k && e.seqno <= n && (newest.None? || newest.value.seqno < e.seqno) {
        newest := Some(e);
      }
    }
    if newest.Some? {
      assert Finds(es, k, n, newest.value);
      LookupFound(es, k, n, newest.value);
      return true, if newest.value.kind.Put? then Some(newest.value.value) else None;
    }
    return false, None;
  }

  lemma GetSkips(layers: seq<set<Entry>>, i: nat, k: Key, n: nat)
    requires i < |layers| && Get(layers, k, n) == Get(layers[i..], k, n)
    ensures !Has(layers[i], k, n) ==> Get(layers, k, n) == Get(layers[i + 1..], k, n)
    ensures Has(layers[i], k, n) ==> Get(layers, k, n) == Lookup(layers[i], k, n)
  {
    assert layers[i..][1..] == layers[i + 1..];
  }

  lemma NothingLeft(k: Key, n: nat)
    ensures Get([], k, n) == None
  {
  }

  // Search these before going on to the rest.
  method SearchFiles(files: seq<set<Entry>>, k: Key, n: nat, ghost rest: seq<set<Entry>>)
    returns (found: bool, value: Option<Value>)
    requires forall i :: 0 <= i < |files| ==> Distinct(files[i])
    ensures found ==> Get(files + rest, k, n) == value
    ensures !found ==> value == None && Get(files + rest, k, n) == Get(rest, k, n)
  {
    hide Get;
    hide Lookup;
    hide Has;
    ghost var all := files + rest;
    assert all[0..] == all;
    for i := 0 to |files|
      invariant Get(all, k, n) == Get(all[i..], k, n)
    {
      found, value := Search(files[i], k, n);
      GetSkips(all, i, k, n);
      if found { return; }
    }
    assert all[|files|..] == rest;
    return false, None;
  }

  // WriteBatchInternal::InsertInto: the entries of a batch go in one by one.
  method InsertInto(b: Batch, table: set<Entry>) returns (after: set<Entry>)
    ensures after == table + Range(Numbered(b))
  {
    after := table;
    var sequence := b.sequence;
    for i := 0 to |b.ops|
      invariant sequence == b.sequence + i
      invariant after == table + Range(Numbered(b)[..i])
    {
      var op := b.ops[i];
      after := after + {Entry(op.key, sequence, op.kind, op.value)};
      assert Numbered(b)[..i + 1] == Numbered(b)[..i] + [Entry(op.key, sequence, op.kind, op.value)];
      sequence := sequence + 1;
    }
    assert Numbered(b)[..|b.ops|] == Numbered(b);
  }

  // ----- Recovery -----

  lemma NumberedBounds(b: Batch)
    ensures forall e :: e in Numbered(b) ==> b.sequence <= e.seqno <= Last(b)
  {
  }

  lemma ReadSoFarIsOlder(u: set<Entry>, log: seq<Batch>, i: nat)
    requires i < |log| && Ordered(log) && Older(u, LogEntries(log))
    ensures Older(u + LogEntries(log[..i]), Range(Numbered(log[i])))
  {
    var b := log[i];
    NumberedBounds(b);
    assert b in log;
    forall e | e in LogEntries(log[..i])
      ensures e.seqno < b.sequence
    {
      var c :| c in log[..i] && e in Numbered(c);
      NumberedBounds(c);
      var j :| 0 <= j < i && log[j] == c;
    }
    forall f | f in Numbered(b)
      ensures f in LogEntries(log)
    {
    }
  }

  lemma OneMoreBatch(log: seq<Batch>, i: nat)
    requires i < |log|
    ensures LogEntries(log[..i + 1]) == LogEntries(log[..i]) + Range(Numbered(log[i]))
  {
    assert log[..i + 1] == log[..i] + [log[i]];
    LogEntriesAppend(log[..i], log[i]);
  }

  function BatchesOf(log: seq<Batch>): set<Batch> {
    set b | b in log
  }

  // m is the highest of least and the batches' last sequence numbers.
  ghost predicate IsHighest(bs: set<Batch>, least: nat, m: nat) {
    && m >= least && (forall b :: b in bs ==> Last(b) <= m)
    && (m == least || exists b :: b in bs && Last(b) == m)
  }

  lemma HighestSoFar(log: seq<Batch>, i: nat, least: nat, m: nat)
    requires i < |log| && IsHighest(BatchesOf(log[..i]), least, m) && Last(log[i]) >= 0
    ensures IsHighest(BatchesOf(log[..i + 1]), least, if Last(log[i]) > m then Last(log[i]) else m)
  {
    assert log[..i + 1] == log[..i] + [log[i]];
    assert BatchesOf(log[..i + 1]) == BatchesOf(log[..i]) + {log[i]};
  }

  // WriteLevel0Table: an empty table is not added.
  method WriteLevel0Table(mem: set<Entry>, before: seq<set<Entry>>) returns (tables: seq<set<Entry>>)
    requires NewerAbove(before) && Older(Union(before), mem)
    ensures NewerAbove(tables) && Union(tables) == Union(before) + mem
    ensures tables == if mem == {} then before else [mem] + before
  {
    NewFileOnTop(mem, before);
    return if mem == {} then before else [mem] + before;
  }

  // RecoverLogFile: replay one log into tables, newest first; whether the
  // memtable is full after a record is left open.
  method RecoverLogFile(log: seq<Batch>, before: seq<set<Entry>>, least: nat)
    returns (tables: seq<set<Entry>>, maxSequence: nat)
    requires NewerAbove(before) && Older(Union(before), LogEntries(log)) && Ordered(log)
    requires forall b :: b in log ==> 1 <= b.sequence
    ensures NewerAbove(tables) && Union(tables) == Union(before) + LogEntries(log)
    ensures IsHighest(BatchesOf(log), least, maxSequence)
  {
    hide NewerAbove;
    hide Union;
    hide LogEntries;
    hide Ordered;
    hide IsHighest;
    tables, maxSequence := before, least;
    var mem: set<Entry> := {};
    EmptyLog(log, least);
    for i := 0 to |log|
      invariant NewerAbove(tables) && Older(Union(tables), mem)
      invariant Union(tables) + mem == Union(before) + LogEntries(log[..i])
      invariant IsHighest(BatchesOf(log[..i]), least, maxSequence)
    {
      ReadSoFarIsOlder(Union(before), log, i);
      OneMoreBatch(log, i);
      mem := InsertInto(log[i], mem);
      var lastSeq := log[i].sequence + |log[i].ops| - 1;
      HighestSoFar(log, i, least, maxSequence);
      if lastSeq > maxSequence {
        maxSequence := lastSeq;
      }
      if * {
        tables := WriteLevel0Table(mem, tables);
        mem := {};
      }
    }
    assert log[..|log|] == log;
    tables := WriteLevel0Table(mem, tables);
  }

  lemma EmptyLog(log: seq<Batch>, least: nat)
    ensures LogEntries(log[..0]) == {}
    ensures IsHighest(BatchesOf(log[..0]), least, least)
  {
  }

  function AllLevels(level0: seq<set<Entry>>, deeper: seq<set<Entry>>): (r: seq<set<Entry>>)
    ensures |r| == |deeper| + 1
  {
    [Union(level0)] + deeper
  }

  lemma LevelsWith(level0: seq<set<Entry>>, deeper: seq<set<Entry>>, level: nat, file: set<Entry>)
    requires NewerAbove(level0) && Older(Union(level0), file) && level <= |deeper|
    ensures AllLevels(level0, deeper)[level := AllLevels(level0, deeper)[level] + file]
         == if level == 0 then AllLevels([file] + level0, deeper)
            else AllLevels(level0, deeper[level - 1 := deeper[level - 1] + file])
  {
    NewFileOnTop(file, level0);
  }

  lemma FlushIs(s: State, level: nat)
    requires Enabled(s, Flush(level))
    ensures s.imm.Some? && level < |s.levels|
    ensures Apply(s, Flush(level)) == s.(levels := s.levels[level := s.levels[level] + s.imm.value], imm := None,
                                         manifestLog := s.logNumber, manifestSequence := s.lastSequence,
                                         logs := LogsFrom(s.logs, s.logNumber))
  {
  }

  lemma FinishIs(s: State)
    requires Enabled(s, FinishCompaction)
    ensures Apply(s, FinishCompaction)
         == s.(levels := Installed(s.levels, s.work.value, Outputs(s.work.value)), work := None,
               floor := s.work.value.smallest, manifestSequence := s.lastSequence)
  {
  }

  // The base keys the compaction loop finds are such that no deeper level holds
  // any of them, given that every entry lies within a file of its level.
  lemma BaseKeysAreBase(c: Compactor, levels: seq<set<Entry>>, input: seq<Entry>)
    requires |c.files| == NUM_LEVELS == |levels|
    requires forall j, o: Entry :: 0 <= j < NUM_LEVELS && o in levels[j]
               ==> exists i :: 0 <= i < |c.files[j]| && Covers(c.less, c.files[j][i], o.key)
    ensures forall e, o, j :: e in input && c.level + 2 <= j < NUM_LEVELS && o in levels[j] && e.key == o.key
              ==> e.key !in c.BaseKeys(input)
  {
    forall e, o, j | e in input && c.level + 2 <= j < NUM_LEVELS && o in levels[j] && e.key == o.key
      ensures !c.IsBase(e.key)
    {
    }
  }

  lemma SmallestIsFirst(s: seq<nat>)
    requires forall i, j :: 0 <= i < j < |s| ==> s[i] <= s[j]
    ensures s == [] ==> multiset(s) == multiset{}
    ensures s != [] ==> s[0] in multiset(s) && multiset(s) != multiset{} && forall m :: m in multiset(s) ==> s[0] <= m
  {
  }

  lemma RemoveAt(s: seq<nat>, i: nat)
    requires i < |s|
    ensures multiset(s[..i] + s[i + 1..]) == multiset(s) - multiset{s[i]}
  {
    assert s == s[..i] + [s[i]] + s[i + 1..];
  }

  method Smallest(ns: set<nat>) returns (m: nat)
    requires ns != {}
    ensures m in ns && forall n :: n in ns ==> m <= n
  {
    m :| m in ns;
    var rest := ns - {m};
    while rest != {}
      invariant rest <= ns && m in ns
      invariant forall n :: n in ns && n !in rest ==> m <= n
      decreases |rest|
    {
      var n :| n in rest;
      rest := rest - {n};
      if n < m { m := n; }
    }
  }

  ghost predicate Rising(ns: seq<nat>) {
    forall i, j :: 0 <= i < j < |ns| ==> ns[i] < ns[j]
  }

  // The logs to replay, in the order in which they were generated.
  method SortedLogs(logs: Logs, minLog: nat) returns (numbers: seq<nat>)
    ensures Rising(numbers) && forall n :: n in numbers <==> n in logs && n >= minLog
  {
    numbers := [];
    var rest := set n | n in logs && n >= minLog;
    while rest != {}
      invariant rest <= logs.Keys && forall n :: n in rest ==> n >= minLog
      invariant forall n :: n in numbers || n in rest <==> n in logs && n >= minLog
      invariant Rising(numbers) && forall n, m :: n in numbers && m in rest ==> n < m
      decreases |rest|
    {
      var n := Smallest(rest);
      assert forall i :: 0 <= i < |numbers| ==> numbers[i] in numbers;
      rest := rest - {n};
      numbers := numbers + [n];
    }
  }

  function EntriesOf(logs: Logs, ns: seq<nat>): set<Entry> {
    set n, e | n in ns && n in logs && e in LogEntries(logs[n]) :: e
  }

  function BatchesIn(logs: Logs, ns: seq<nat>): set<Batch> {
    set n, b | n in ns && n in logs && b in logs[n] :: b
  }

  lemma OneMoreLog(logs: Logs, ns: seq<nat>, i: nat)
    requires i < |ns| && ns[i] in logs
    ensures EntriesOf(logs, ns[..i + 1]) == EntriesOf(logs, ns[..i]) + LogEntries(logs[ns[i]])
    ensures BatchesIn(logs, ns[..i + 1]) == BatchesIn(logs, ns[..i]) + BatchesOf(logs[ns[i]])
  {
    hide LogEntries;
    assert ns[..i + 1] == ns[..i] + [ns[i]];
  }

  lemma EarlierLogsAreOlder(logs: Logs, ns: seq<nat>, i: nat)
    requires LogsOrdered(logs) && Rising(ns) && i < |ns| && forall n :: n in ns ==> n in logs
    ensures Older(EntriesOf(logs, ns[..i]), LogEntries(logs[ns[i]]))
  {
    forall e, f | e in EntriesOf(logs, ns[..i]) && f in LogEntries(logs[ns[i]])
      ensures e.seqno < f.seqno
    {
      var n :| n in ns[..i] && n in logs && e in LogEntries(logs[n]);
      var b :| b in logs[n] && e in Numbered(b);
      var c :| c in logs[ns[i]] && f in Numbered(c);
      NumberedBounds(b);
      NumberedBounds(c);
      assert AllEarlier(logs[n], logs[ns[i]]);
    }
  }

  lemma AllLogs(logs: Logs, minLog: nat, ns: seq<nat>)
    requires forall n :: n in ns <==> n in logs && n >= minLog
    ensures EntriesOf(logs, ns) == Replayed(logs, minLog) && BatchesIn(logs, ns) == Batches(logs, minLog)
  {
    hide LogEntries;
  }

  lemma HighestOfBoth(a: set<Batch>, b: set<Batch>, least: nat, m: nat, n: nat)
    requires IsHighest(a, least, m) && IsHighest(b, m, n)
    ensures IsHighest(a + b, least, n)
  {
  }

  lemma NoLogs(logs: Logs, ns: seq<nat>)
    ensures EntriesOf(logs, ns[..0]) == {} && IsHighest(BatchesIn(logs, ns[..0]), 0, 0)
  {
  }

  // The loop over the logs in Recover.
  method RecoverLogs(logs: Logs, minLog: nat, before: seq<set<Entry>>)
    returns (tables: seq<set<Entry>>, maxSequence: nat)
    requires LogsOrdered(logs) && NewerAbove(before) && Older(Union(before), Replayed(logs, minLog))
    requires forall n, b :: n in logs && b in logs[n] ==> 1 <= b.sequence
    ensures NewerAbove(tables) && Union(tables) == Union(before) + Replayed(logs, minLog)
    ensures IsHighest(Batches(logs, minLog), 0, maxSequence)
  {
    hide LogsOrdered;
    hide NewerAbove;
    hide Union;
    hide Replayed;
    hide Batches;
    hide EntriesOf;
    hide BatchesIn;
    hide LogEntries;
    hide BatchesOf;
    hide IsHighest;
    var numbers := SortedLogs(logs, minLog);
    AllLogs(logs, minLog, numbers);
    NoLogs(logs, numbers);
    tables, maxSequence := before, 0;
    for i := 0 to |numbers|
      invariant NewerAbove(tables) && Union(tables) == Union(before) + EntriesOf(logs, numbers[..i])
      invariant IsHighest(BatchesIn(logs, numbers[..i]), 0, maxSequence)
    {
      var n := numbers[i];
      assert n in numbers;
      EarlierLogsAreOlder(logs, numbers, i);
      OneMoreLog(logs, numbers, i);
      OneLogIsOrdered(logs, n);
      ReplayedHas(logs, minLog, n);
      ghost var m := maxSequence;
      tables, maxSequence := RecoverLogFile(logs[n], tables, maxSequence);
      HighestOfBoth(BatchesIn(logs, numbers[..i]), BatchesOf(logs[n]), 0, m, maxSequence);
    }
    assert numbers[..|numbers|] == numbers;
  }

  lemma OneLogIsOrdered(logs: Logs, n: nat)
    requires LogsOrdered(logs) && n in logs
    ensures Ordered(logs[n])
  {
  }

  lemma ReplayedHas(logs: Logs, minLog: nat, n: nat)
    requires n in logs && n >= minLog
    ensures LogEntries(logs[n]) <= Replayed(logs, minLog)
  {
    hide LogEntries;
  }

  lemma Replayable(s: State)
    requires Inv(s)
    ensures Enabled(s, CrashAndReopen)
    ensures Older(Union(s.levels), Replayed(s.logs, s.manifestLog))
    ensures forall n, b :: n in s.logs && b in s.logs[n] ==> 1 <= b.sequence
  {
    hide Replayed;
    hide Union;
    hide NewerAbove;
    hide LogEntries;
    hide HistoryOk;
    hide WorkOk;
    hide ReadsOk;
    hide SnapshotsOk;
    PendingIsNewer(s);
  }

  lemma HighestIs(bs: set<Batch>, least: nat, m: nat)
    requires IsHighest(bs, 0, m)
    ensures Highest(bs, least) == if least < m then m else least
  {
  }

  function OneLog(n: nat): Logs {
    map[n := []]
  }

  function WithNewLog(s: State): State {
    s.(logs := OneLog(s.nextFile), logNumber := s.nextFile, nextFile := s.nextFile + 1,
       manifestLog := s.nextFile, manifestSequence := s.lastSequence)
  }

  // A store with these levels and nothing in memory, its log new.
  function Restarted(s: State, levels: seq<set<Entry>>, last: nat): State {
    WithNewLog(s.(levels := levels, lastSequence := last, mem := {}, imm := None, pending := None, work := None,
                  snapshots := multiset{}))
  }

  lemma CrashIs(s: State)
    requires Enabled(s, CrashAndReopen)
    ensures |s.levels| > 0
    ensures Apply(s, CrashAndReopen)
         == Restarted(s, s.levels[0 := s.levels[0] + Replayed(s.logs, s.manifestLog)],
                      Highest(Batches(s.logs, s.manifestLog), s.manifestSequence))
  {
  }

  // ----- The database -----

  // What a writer finds: an error in the background, many or too many files in
  // level 0, room in the memtable, and whether the immutable one is flushed while
  // it waits.
  datatype Look = Look(bgError: bool, crowded: bool, stopped: bool, roomy: bool, flushed: bool)

  // What others do while the writer is without the mutex.
  datatype Meanwhile = Nothing | Flushed | TookSnapshot

  lemma StepIs(s: State, a: Action, t: State)
    requires Steps(s, a, t)
    ensures a.LogGroup? ==>
      var b := Batch(s.lastSequence + 1, a.ops);
      t == s.(pending := Some(Group(b, 0)), history := s.history + Numbered(b), logs := t.logs)
    ensures a.Insert? ==>
      && s.pending.Some?
      && t == s.(mem := t.mem, pending := Some(s.pending.value.(inserted := s.pending.value.inserted + 1)))
    ensures a.Publish? ==>
      && s.pending.Some?
      && t == s.(lastSequence := s.lastSequence + |s.pending.value.batch.ops|, pending := None)
    ensures a.Flush? ==> t.history == s.history && t.lastSequence == s.lastSequence
    ensures a.Flush? ==> t.pending == s.pending && t.snapshots == s.snapshots
    ensures a.GetSnapshot? ==> t == s.(snapshots := s.snapshots + multiset{s.lastSequence})
  {
    hide CleanCut;
    hide LogsFrom;
    hide Numbered;
  }

  datatype Room = Granted | Refused | StillWaiting

  datatype Turns = Turns(answer: Room, delays: nat, actions: seq<Action>) {
    function Before(delay: nat, actions: seq<Action>): Turns {
      Turns(answer, delay + delays, actions + this.actions)
    }
  }

  // What becomes of a writer, told by what it finds at each look.
  function RoomFor(force: bool, allowDelay: bool, hasImm: bool, looks: seq<Look>): Turns
    decreases |looks|
  {
    if looks == [] then Turns(StillWaiting, 0, [])
    else
      var look, later := looks[0], looks[1..];
      if look.bgError then Turns(Refused, 0, [])
      else if allowDelay && look.crowded then RoomFor(force, false, hasImm, later).Before(1, [])
      else if !force && look.roomy then Turns(Granted, 0, [])
      else if hasImm && look.flushed then RoomFor(force, allowDelay, false, later).Before(0, [Flush(0)])
      else if hasImm || look.stopped then RoomFor(force, allowDelay, hasImm, later)
      else RoomFor(false, allowDelay, true, later).Before(0, [SwitchMemTable])
  }

  // A writer is delayed at most once, and one that forces a switch never; it is let in only with
  // room in the memtable and nothing wrong, and after a switch if it forced one; switches and
  // flushes alternate, and with too many files in level 0 there is no switch.
  lemma {:induction false} RoomIsFair(force: bool, allowDelay: bool, hasImm: bool, looks: seq<Look>)
    ensures var t := RoomFor(force, allowDelay, hasImm, looks);
      && t.delays <= (if allowDelay then 1 else 0)
      && (t.answer.Granted? ==> exists i :: 0 <= i < |looks| && looks[i].roomy && !looks[i].bgError)
      && (t.answer.Granted? && force ==> SwitchMemTable in t.actions)
      && (t.answer.Refused? ==> exists i :: 0 <= i < |looks| && looks[i].bgError)
      && Alternates(t.actions, hasImm)
      && ((forall i :: 0 <= i < |looks| ==> looks[i].stopped) ==> SwitchMemTable !in t.actions)
    decreases |looks|
  {
    if looks != [] {
      var look, later := looks[0], looks[1..];
      assert forall i :: 0 <= i < |later| ==> later[i] == looks[i + 1];
      RoomIsFair(force, false, hasImm, later);
      RoomIsFair(force, allowDelay, false, later);
      RoomIsFair(force, allowDelay, hasImm, later);
      RoomIsFair(false, allowDelay, true, later);
      NothingAppended(RoomFor(force, false, hasImm, later).actions);
      AlternatesOn(RoomFor(force, allowDelay, false, later).actions, true);
      AlternatesOn(RoomFor(false, allowDelay, true, later).actions, false);
      hide Alternates;
    }
  }

  // A sound look that is not spent on a delay lets a writer in when there is room and it
  // does not force a switch; and makes it switch at once when there is not, with no
  // memtable to be flushed before and not too many files in level 0.
  lemma FirstLook(force: bool, allowDelay: bool, hasImm: bool, looks: seq<Look>)
    requires looks != [] && !looks[0].bgError
    ensures var (t, look) := (RoomFor(force, allowDelay, hasImm, looks), looks[0]);
      && (allowDelay && look.crowded ==> t.delays == 1)
      && (!(allowDelay && look.crowded) && look.roomy && !force ==> t == Turns(Granted, 0, []))
      && (!(allowDelay && look.crowded) && (!look.roomy || force) && !hasImm && !look.stopped
          ==> t.actions != [] && t.actions[0] == SwitchMemTable)
  {
    RoomIsFair(force, false, hasImm, looks[1..]);
  }

  // Flushes and switches in turns, a flush first when there is something to flush.
  ghost predicate Alternates(actions: seq<Action>, hasImm: bool) {
    forall i :: 0 <= i < |actions| ==> actions[i] == if hasImm == (i % 2 == 0) then Flush(0) else SwitchMemTable
  }

  lemma AlternatesOn(actions: seq<Action>, hasImm: bool)
    requires Alternates(actions, !hasImm)
    ensures Alternates([if hasImm then Flush(0) else SwitchMemTable] + actions, hasImm)
  {
  }

  lemma PendingStays(s: State, a: Action, t: State)
    requires Steps(s, a, t) && (a.Flush? || a.SwitchMemTable?)
    ensures t.pending == s.pending
    ensures t.imm.None? == a.Flush?
  {
  }

  // One look, after what has been done so far.
  lemma RoomStep(force: bool, allowDelay: bool, hasImm: bool, looks: seq<Look>, i: nat, delays: nat,
                 actions: seq<Action>)
    requires i <= |looks|
    ensures var t := RoomFor(force, allowDelay, hasImm, looks[i..]).Before(delays, actions);
      if i == |looks| then t == Turns(StillWaiting, delays, actions)
      else if looks[i].bgError then t == Turns(Refused, delays, actions)
      else if allowDelay && looks[i].crowded then
        t == RoomFor(force, false, hasImm, looks[i + 1..]).Before(delays + 1, actions)
      else if !force && looks[i].roomy then t == Turns(Granted, delays, actions)
      else if hasImm && looks[i].flushed then
        t == RoomFor(force, allowDelay, false, looks[i + 1..]).Before(delays, actions + [Flush(0)])
      else if hasImm || looks[i].stopped then
        t == RoomFor(force, allowDelay, hasImm, looks[i + 1..]).Before(delays, actions)
      else t == RoomFor(false, allowDelay, true, looks[i + 1..]).Before(delays, actions + [SwitchMemTable])
  {
    assert i < |looks| ==> looks[i..][1..] == looks[i + 1..];
    NothingAppended(actions);
  }

  class DBImpl {
    ghost var history: seq<Entry>
    ghost var floor: nat
    var lastSequence: nat
    var mem: set<Entry>
    var imm: Option<set<Entry>>
    var level0: seq<set<Entry>>
    var deeper: seq<set<Entry>>
    var snapshots: seq<nat>
    var pending: Option<Group>
    var work: Option<Work>
    var logs: Logs
    var logNumber: nat
    var nextFile: nat
    var manifestLog: nat
    var manifestSequence: nat

    function Levels(): (r: seq<set<Entry>>)
      reads this`level0, this`deeper
      ensures |r| == |deeper| + 1
    {
      AllLevels(level0, deeper)
    }

    ghost function AsState(): State
      reads this
    {
      State(history, lastSequence, mem, imm, Levels(), multiset(snapshots), pending, work, logs, logNumber, nextFile,
            manifestLog, manifestSequence, floor)
    }

    ghost predicate Ascending()
      reads this`snapshots
    {
      forall i, j :: 0 <= i < j < |snapshots| ==> snapshots[i] <= snapshots[j]
    }

    ghost predicate Valid()
      reads this
    {
      Inv(AsState()) && LogsOrdered(logs) && NewerAbove(level0) && Ascending()
    }

    constructor (log: nat)
      ensures Valid() && AsState() == Opened(log)
    {
      history, floor, lastSequence, mem, imm := [], 0, 0, {}, None;
      level0, deeper, snapshots, pending, work := [], seq(NUM_LEVELS - 1, _ => {}), [], None, None;
      logs, logNumber, nextFile, manifestLog, manifestSequence := map[log := []], log, log + 1, log, 0;
      new;
      OpenedOk(log);
      assert Union([]) == {};
      assert AsState() == Opened(log);
    }

    // ----- Reading -----

    // Get: the memtable, the immutable one, the files of level 0 from the newest
    // on, then the levels; the first that knows the key at the snapshot decides.
    method Get(k: Key, snapshot: Option<nat>) returns (value: Option<Value>)
      requires Valid() && (snapshot.Some? ==> snapshot.value in snapshots)
      ensures value == Lookup(Range(history), k, if snapshot.Some? then snapshot.value else lastSequence)
    {
      hide Valid;
      hide Store.Get;
      hide Lookup;
      hide Range;
      var n := if snapshot.Some? then snapshot.value else lastSequence;
      FilesReadAsLayers(k, n);
      FilesAreDistinct();
      assert [mem, Immutable(AsState())] + level0 + deeper == [mem] + ([Immutable(AsState())] + (level0 + deeper));
      var found, v := SearchFiles([mem], k, n, [Immutable(AsState())] + (level0 + deeper));
      if found { return v; }
      found, v := SearchFiles(if imm.Some? then [imm.value] else [{}], k, n, level0 + deeper);
      if found { return v; }
      found, v := SearchFiles(level0, k, n, deeper);
      if found { return v; }
      assert deeper + [] == deeper;
      found, v := SearchFiles(deeper, k, n, []);
      NothingLeft(k, n);
      return v;
    }

    // ----- Writing -----

    lemma Shape()
      requires Valid()
      ensures Shaped(AsState()) && |deeper| == NUM_LEVELS - 1
    {
    }

    lemma InvHolds()
      requires Valid()
      ensures Inv(AsState()) && NewerAbove(Levels()) && NewerAbove(level0)
    {
    }

    lemma Step(a: Action, t: State)
      requires Valid() && Enabled(AsState(), a) && t == Apply(AsState(), a)
      ensures Inv(t) && LogsOrdered(t.logs) && Steps(AsState(), a, t)
    {
      hide Enabled;
      hide Apply;
      hide Inv;
      StepKeeps(AsState(), a);
      LogOrderKept(AsState(), a);
    }

    // The head of the queue numbers its group and logs it.
    method AddRecord(ops: seq<Write>)
      requires Valid() && pending.None?
      modifies this
      ensures Valid() && Steps(old(AsState()), LogGroup(ops), AsState())
      ensures logNumber in old(logs)
      ensures logs == old(logs)[logNumber := old(logs)[logNumber] + [Batch(lastSequence + 1, ops)]] && mem == old(mem)
    {
      hide Inv;
      hide LogsOrdered;
      hide NewerAbove;
      Shape();
      ghost var s := AsState();
      ghost var t := s.(pending := Some(Group(Batch(lastSequence + 1, ops), 0)),
                        history := history + Numbered(Batch(lastSequence + 1, ops)),
                         logs := logs[logNumber := logs[logNumber] + [Batch(lastSequence + 1, ops)]]);
      Step(LogGroup(ops), t);
      hide Steps;
      hide Apply;
      hide Enabled;
      var updates := Batch(lastSequence + 1, ops);
      logs := logs[logNumber := logs[logNumber] + [updates]];
      history := history + Numbered(updates);
      pending := Some(Group(updates, 0));
      assert AsState() == t;
    }

    // One entry goes into the memtable while the mutex is released.
    method InsertNext()
      requires Valid() && pending.Some? && pending.value.inserted < |pending.value.batch.ops|
      modifies this
      ensures Valid() && Steps(old(AsState()), Insert, AsState())
      ensures var (g, i) := (old(pending).value, old(pending).value.inserted);
        var op := g.batch.ops[i];
        mem == old(mem) + {Entry(op.key, g.batch.sequence + i, op.kind, op.value)}
        && pending == Some(g.(inserted := i + 1)) && logs == old(logs)
    {
      hide Inv;
      hide LogsOrdered;
      hide NewerAbove;
      Shape();
      ghost var s := AsState();
      ghost var t := s.(mem := mem + {Numbered(pending.value.batch)[pending.value.inserted]},
                         pending := Some(pending.value.(inserted := pending.value.inserted + 1)));
      Step(Insert, t);
      hide Steps;
      hide Apply;
      hide Enabled;
      var g := pending.value;
      var op := g.batch.ops[g.inserted];
      mem := mem + {Entry(op.key, g.batch.sequence + g.inserted, op.kind, op.value)};
      pending := Some(g.(inserted := g.inserted + 1));
      assert AsState() == t;
    }

    method SetLastSequence()
      requires Valid() && pending.Some? && pending.value.inserted == |pending.value.batch.ops|
      modifies this
      ensures Valid() && Steps(old(AsState()), Publish, AsState())
      ensures lastSequence == old(lastSequence) + |old(pending).value.batch.ops| && pending.None? && mem == old(mem)
    {
      hide Inv;
      hide LogsOrdered;
      hide NewerAbove;
      Shape();
      ghost var s := AsState();
      ghost var t := s.(lastSequence := lastSequence + |pending.value.batch.ops|, pending := None);
      Step(Publish, t);
      hide Steps;
      hide Apply;
      hide Enabled;
      lastSequence := lastSequence + |pending.value.batch.ops|;
      pending := None;
      assert AsState() == t;
    }

    lemma SnapshotsBounded()
      requires Valid()
      ensures forall i :: 0 <= i < |snapshots| ==> snapshots[i] <= lastSequence
    {
      assert forall i :: 0 <= i < |snapshots| ==> snapshots[i] in AsState().snapshots;
    }

    // MakeRoomForWrite, where it switches to a new memtable and log.
    method SwitchToNewLog()
      requires Valid() && pending.None? && imm.None?
      modifies this
      ensures Valid() && Steps(old(AsState()), SwitchMemTable, AsState())
      ensures imm == Some(old(mem)) && mem == {} && logNumber == old(nextFile)
      ensures logs == old(logs)[old(nextFile) := []] && history == old(history) && lastSequence == old(lastSequence)
    {
      hide Inv;
      hide LogsOrdered;
      hide NewerAbove;
      Shape();
      ghost var s := AsState();
      ghost var t := s.(logNumber := nextFile, nextFile := nextFile + 1, logs := logs[nextFile := []],
                        imm := Some(mem), mem := {});
      Step(SwitchMemTable, t);
      hide Steps;
      hide Apply;
      hide Enabled;
      var newLogNumber := nextFile;
      nextFile := nextFile + 1;
      logNumber := newLogNumber;
      logs := logs[newLogNumber := []];
      imm := Some(mem);
      mem := {};
      assert AsState() == t;
    }

    // The middle of Write: the group is logged, inserted entry by entry while
    // others get their turns, and published. No snapshot taken in between covers
    // some of it only.
    method WriteGroup(ops: seq<Write>, meanwhile: seq<Meanwhile>)
      requires Valid() && pending.None? && |meanwhile| == |ops|
      modifies this
      ensures Valid() && pending.None?
      ensures history == old(history) + Numbered(Batch(old(lastSequence) + 1, ops))
      ensures lastSequence == old(lastSequence) + |ops|
      ensures forall n :: n in snapshots ==> !Splits(n, Batch(old(lastSequence) + 1, ops))
    {
      hide Inv;
      hide LogsOrdered;
      hide NewerAbove;
      hide Steps;
      ghost var s := AsState();
      SnapshotsBounded();
      AddRecord(ops);
      StepIs(s, LogGroup(ops), AsState());
      ghost var b := Batch(s.lastSequence + 1, ops);
      for i := 0 to |ops|
        invariant Valid() && pending == Some(Group(b, i))
        invariant history == s.history + Numbered(b) && lastSequence == s.lastSequence
        invariant forall n :: n in AsState().snapshots ==> n <= s.lastSequence
      {
        OthersTurn(meanwhile[i]);
        ghost var t := AsState();
        InsertNext();
        StepIs(t, Insert, AsState());
      }
      ghost var t := AsState();
      SetLastSequence();
      StepIs(t, Publish, AsState());
      assert forall n :: n in snapshots ==> n in AsState().snapshots;
    }

    method OthersTurn(m: Meanwhile)
      requires Valid()
      modifies this
      ensures Valid() && pending == old(pending) && history == old(history) && lastSequence == old(lastSequence)
      ensures forall n :: n in AsState().snapshots ==> n in old(AsState().snapshots) || n == lastSequence
    {
      hide Inv;
      hide LogsOrdered;
      hide NewerAbove;
      hide Steps;
      ghost var t := AsState();
      if m.Flushed? && imm.Some? {
        Shape();
        assert Enabled(t, Flush(0));
        hide Enabled;
        InstallTable(0);
        StepIs(t, Flush(0), AsState());
      } else if m.TookSnapshot? {
        var n := GetSnapshot();
        StepIs(t, Action.GetSnapshot, AsState());
      }
    }

    // MakeRoomForWrite, from one look at the state of things to the next.
    method MakeRoomForWrite(forced: bool, looks: seq<Look>)
      returns (answer: Room, delays: nat, ghost actions: seq<Action>)
      requires Valid() && pending.None?
      modifies this
      ensures Valid() && pending.None? && Reaches(old(AsState()), actions, AsState())
      ensures Turns(answer, delays, actions) == RoomFor(forced, !forced, old(imm).Some?, looks)
    {
      hide Inv;
      hide LogsOrdered;
      hide NewerAbove;
      hide RoomFor;
      var force, allowDelay := forced, !forced;
      delays, actions := 0, [];
      ghost var goal := RoomFor(forced, !forced, imm.Some?, looks);
      assert looks[0..] == looks;
      for i := 0 to |looks|
        invariant Valid() && pending.None? && Reaches(old(AsState()), actions, AsState())
        invariant goal == RoomFor(force, allowDelay, imm.Some?, looks[i..]).Before(delays, actions)
      {
        ghost var s := AsState();
        var look := looks[i];
        RoomStep(force, allowDelay, imm.Some?, looks, i, delays, actions);
        if look.bgError {
          return Refused, delays, actions;
        } else if allowDelay && look.crowded {
          delays := delays + 1;
          allowDelay := false;
        } else if !force && look.roomy {
          return Granted, delays, actions;
        } else if imm.Some? {
          // Waits; the background thread may be done with the immutable memtable.
          if look.flushed {
            FlushNow();
            ReachesOneMore(old(AsState()), actions, s, Flush(0), AsState());
            actions := actions + [Flush(0)];
          }
        } else if !look.stopped {
          SwitchToNewLog();
          PendingStays(s, SwitchMemTable, AsState());
          ReachesOneMore(old(AsState()), actions, s, SwitchMemTable, AsState());
          actions := actions + [SwitchMemTable];
          force := false;
        }
      }
      RoomStep(force, allowDelay, imm.Some?, looks, |looks|, delays, actions);
      return StillWaiting, delays, actions;
    }

    method FlushNow()
      requires Valid() && imm.Some?
      modifies this
      ensures Valid() && Steps(old(AsState()), Flush(0), AsState()) && pending == old(pending) && imm.None?
    {
      hide Inv;
      hide LogsOrdered;
      hide NewerAbove;
      Shape();
      ghost var s := AsState();
      assert Enabled(s, Flush(0));
      InstallTable(0);
      PendingStays(s, Flush(0), AsState());
    }

    // ----- Snapshots -----

    method GetSnapshot() returns (n: nat)
      requires Valid()
      modifies this
      ensures Valid() && Steps(old(AsState()), Action.GetSnapshot, AsState()) && n == lastSequence && n in snapshots
      ensures snapshots == old(snapshots) + [old(lastSequence)]
    {
      hide Inv;
      hide LogsOrdered;
      hide NewerAbove;
      Shape();
      SnapshotsBounded();
      ghost var s := AsState();
      ghost var t := s.(snapshots := multiset(snapshots) + multiset{lastSequence});
      Step(Action.GetSnapshot, t);
      hide Steps;
      hide Apply;
      hide Enabled;
      n := lastSequence;
      snapshots := snapshots + [n];
      assert AsState() == t;
    }

    method ReleaseSnapshot(i: nat)
      requires Valid() && i < |snapshots|
      modifies this
      ensures Valid() && Steps(old(AsState()), Action.ReleaseSnapshot(old(snapshots[i])), AsState())
      ensures snapshots == old(snapshots)[..i] + old(snapshots)[i + 1..]
    {
      hide Inv;
      hide LogsOrdered;
      hide NewerAbove;
      Shape();
      assert snapshots[i] in AsState().snapshots;
      ghost var s := AsState();
      ghost var t := s.(snapshots := multiset(snapshots) - multiset{snapshots[i]});
      Step(Action.ReleaseSnapshot(snapshots[i]), t);
      hide Steps;
      hide Apply;
      hide Enabled;
      RemoveAt(snapshots, i);
      snapshots := snapshots[..i] + snapshots[i + 1..];
      assert AsState() == t;
    }

    // ----- Background work -----

    // PickLevelForMemTableOutput; overlaps tells for each level whether its
    // files overlap the memtable's key range, and tooMany whether a push would
    // leave too much to merge with two levels on.
    method PickLevelForMemTableOutput(overlaps: seq<bool>, tooMany: seq<bool>) returns (level: nat)
      requires |overlaps| == |tooMany| == NUM_LEVELS
      ensures level <= MAX_MEM_COMPACT_LEVEL
      ensures level == 0 || forall l :: 0 <= l <= level ==> !overlaps[l]
      // And no level further down would do.
      ensures level < MAX_MEM_COMPACT_LEVEL ==> overlaps[0] || overlaps[level + 1] || tooMany[level + 2]
      ensures forall l :: 2 <= l < level + 2 ==> !tooMany[l]
    {
      level := 0;
      if !overlaps[0] {
        while level < MAX_MEM_COMPACT_LEVEL
          invariant level <= MAX_MEM_COMPACT_LEVEL
          invariant forall l :: 0 <= l <= level ==> !overlaps[l]
          invariant forall l :: 2 <= l < level + 2 ==> !tooMany[l]
        {
          if overlaps[level + 1] { break; }
          if level + 2 < NUM_LEVELS && tooMany[level + 2] { break; }
          level := level + 1;
        }
      }
    }

    // Two collections share no key when nothing of the one overlaps the other.
    ghost predicate NoSharedKey(a: set<Entry>, b: set<Entry>) {
      forall e, f :: e in a && f in b ==> e.key != f.key
    }

    // The immutable memtable becomes a table, the manifest no longer needs its
    // log, and DeleteObsoleteFiles removes it.
    method CompactMemTable(overlaps: seq<bool>, tooMany: seq<bool>) returns (level: nat)
      requires Valid() && imm.Some?
      requires |overlaps| == |tooMany| == NUM_LEVELS
      requires forall l :: 0 <= l < NUM_LEVELS && !overlaps[l] ==> NoSharedKey(AsState().levels[l], imm.value)
      modifies this
      ensures Valid() && Steps(old(AsState()), Flush(level), AsState())
      ensures level <= MAX_MEM_COMPACT_LEVEL && (level > 0 ==> forall l :: 0 <= l <= level ==> !overlaps[l])
      ensures level < MAX_MEM_COMPACT_LEVEL ==> overlaps[0] || overlaps[level + 1] || tooMany[level + 2]
    {
      hide Inv;
      hide LogsOrdered;
      hide NewerAbove;
      Shape();
      level := PickLevelForMemTableOutput(overlaps, tooMany);
      assert forall l :: 0 <= l <= level && level > 0 ==> NoSharedKey(AsState().levels[l], imm.value);
      hide Levels;
      hide Shaped;
      InstallTable(level);
    }

    method AddFile(level: nat, file: set<Entry>)
      requires level <= |deeper| && NewerAbove(level0) && Older(Union(level0), file)
      modifies this`level0, this`deeper
      ensures NewerAbove(level0) && |deeper| == old(|deeper|)
      ensures Levels() == old(Levels())[level := old(Levels())[level] + file]
    {
      LevelsWith(level0, deeper, level, file);
      NewFileOnTop(file, level0);
      if level == 0 {
        level0 := [file] + level0;
      } else {
        deeper := deeper[level - 1 := deeper[level - 1] + file];
      }
    }

    method InstallTable(level: nat)
      requires Valid() && Enabled(AsState(), Flush(level))
      modifies this
      ensures Valid() && Steps(old(AsState()), Flush(level), AsState())
    {
      hide Inv;
      hide LogsOrdered;
      hide NewerAbove;
      hide Union;
      hide Levels;
      hide Steps;
      hide Apply;
      hide Enabled;
      hide Ascending;
      hide LogsFrom;
      ghost var t := Apply(AsState(), Flush(level));
      Step(Flush(level), t);
      FlushIs(AsState(), level);
      ImmIsNewer();
      AddFile(level, imm.value);
      manifestLog, manifestSequence := logNumber, lastSequence;
      imm := None;
      logs := LogsFrom(logs, manifestLog);
      assert AsState() == t;
    }

    // Version set and trivial move: a file goes down one level.
    method MoveFile(level: nat, file: set<Entry>)
      requires Valid() && Enabled(AsState(), TrivialMove(level, file))
      requires level == 0 ==> WholeFiles(level0, file)
      modifies this
      ensures Valid() && Steps(old(AsState()), TrivialMove(level, file), AsState())
    {
      hide Inv;
      hide LogsOrdered;
      hide NewerAbove;
      hide Union;
      hide Levels;
      ghost var s := AsState();
      ghost var t := s.(levels := Installed(s.levels, Move(level, file), file), manifestSequence := lastSequence);
      Step(TrivialMove(level, file), t);
      hide Steps;
      hide Apply;
      hide Enabled;
      hide Ascending;
      ReplaceFiles(Move(level, file), file);
      manifestSequence := lastSequence;
      assert AsState() == t;
    }

    // The deletions and additions of a version edit.
    method ReplaceFiles(w: Work, outputs: set<Entry>)
      requires w.level < |deeper| && NewerAbove(level0)
      requires w.level == 0 ==> WholeFiles(level0, w.upper)
      modifies this`level0, this`deeper
      ensures NewerAbove(level0) && |deeper| == old(|deeper|)
      ensures Levels() == Installed(old(Levels()), w, outputs)
    {
      ghost var before := Levels();
      if w.level == 0 {
        RemainingFiles(level0, w.upper);
        level0 := Remaining(level0, w.upper);
      } else {
        deeper := deeper[w.level - 1 := deeper[w.level - 1] - w.upper];
      }
      assert Levels() == before[w.level := before[w.level] - w.upper];
      deeper := deeper[w.level := deeper[w.level] - w.lower + outputs];
    }

    // DoCompactionWork, up to where it lets go of the mutex; what is to be
    // merged has been picked by the version set.
    method BeginCompaction(level: nat, upper: set<Entry>, lower: set<Entry>, base: set<Key>)
      requires Valid() && work.None? && level < |deeper|
      requires upper <= AsState().levels[level] && lower <= AsState().levels[level + 1]
      requires CleanCut(AsState().levels, Work(level, upper, lower, 0, base))
      modifies this`work
      ensures Valid() && work.Some? && Steps(old(AsState()), StartCompaction(work.value), AsState())
      ensures work.value.level == level && work.value.upper == upper && work.value.lower == lower
      ensures work.value.base == base
      ensures work.value.smallest == if snapshots == [] then lastSequence else snapshots[0]
    {
      hide Inv;
      hide LogsOrdered;
      hide NewerAbove;
      Shape();
      hide Levels;
      var smallestSnapshot;
      if snapshots == [] {
        smallestSnapshot := lastSequence;
      } else {
        smallestSnapshot := snapshots[0];
      }
      var w := Work(level, upper, lower, smallestSnapshot, base);
      SmallestIsFirst(snapshots);
      ghost var s := AsState();
      ghost var t := s.(work := Some(w));
      assert CleanCut(s.levels, w);
      hide CleanCut;
      Step(StartCompaction(w), t);
      hide Steps;
      hide Apply;
      hide Enabled;
      work := Some(w);
      assert AsState() == t;
    }

    lemma FinishStep()
      requires Valid() && work.Some?
      ensures work.value.level + 1 < |AsState().levels|
      ensures var s := AsState();
        var t := s.(levels := Installed(s.levels, work.value, Outputs(work.value)), work := None,
                    floor := work.value.smallest, manifestSequence := lastSequence);
        Inv(t) && LogsOrdered(t.logs) && Steps(s, FinishCompaction, t)
    {
      hide Inv;
      Shape();
      FinishIs(AsState());
      hide Steps;
      Step(FinishCompaction, Apply(AsState(), FinishCompaction));
    }

    // InstallCompactionResults: the outputs are what DoCompactionWork keeps of
    // the inputs.
    method InstallCompactionResults(outputs: seq<Entry>)
      requires Valid() && work.Some? && Range(outputs) == Outputs(work.value)
      requires work.value.level == 0 ==> WholeFiles(level0, work.value.upper)
      modifies this
      ensures Valid() && Steps(old(AsState()), FinishCompaction, AsState())
    {
      hide Inv;
      hide LogsOrdered;
      hide NewerAbove;
      hide Union;
      hide Levels;
      hide Steps;
      hide Outputs;
      hide Range;
      hide Ascending;
      hide CleanCut;
      hide Installed;
      Shape();
      FinishStep();
      ghost var s := AsState();
      var w := work.value;
      ReplaceFiles(w, Range(outputs));
      work := None;
      floor := w.smallest;
      manifestSequence := lastSequence;
      assert AsState() == s.(levels := Installed(s.levels, w, Outputs(w)), work := None,
                             floor := w.smallest, manifestSequence := s.lastSequence);
    }

    lemma ImmIsNewer()
      requires Valid()
      ensures Older(Union(level0), Immutable(AsState())) && Older(Union(level0), mem)
    {
      InUnionOfLevels();
    }

    // ----- Recovery -----

    lemma BeforeRecovery()
      requires Valid()
      ensures Enabled(AsState(), CrashAndReopen)
      ensures Older(Union(level0), Replayed(logs, manifestLog))
      ensures forall n, b :: n in logs && b in logs[n] ==> 1 <= b.sequence
    {
      InUnionOfLevels();
      Replayable(AsState());
      hide Inv;
      hide Replayed;
      hide Union;
    }

    lemma InUnionOfLevels()
      ensures Union(level0) <= Union(AsState().levels)
    {
      forall e | e in Union(level0)
        ensures e in Union(AsState().levels)
      {
        InUnion(AsState().levels, 0, e);
      }
    }

    // The process dies, and Open finds only files: Recover replays the logs at
    // or above the manifest's log number into level 0, oldest log first, and Open
    // starts a new log.
    method CrashAndOpen()
      requires Valid()
      modifies this
      ensures Valid() && Steps(old(AsState()), CrashAndReopen, AsState())
    {
      hide Inv;
      hide LogsOrdered;
      hide NewerAbove;
      hide Union;
      hide Steps;
      hide Apply;
      hide Enabled;
      hide Highest;
      hide IsHighest;
      hide Replayed;
      hide Batches;
      BeforeRecovery();
      ghost var t := Apply(AsState(), CrashAndReopen);
      Step(CrashAndReopen, t);
      CrashIs(AsState());
      var tables, maxSequence := RecoverLogs(logs, manifestLog, level0);
      HighestIs(Batches(logs, manifestLog), manifestSequence, maxSequence);
      LevelZero();
      ReplaceLevel0(tables);
      hide Levels;
      Forget();
      TakeSequence(maxSequence);
      OpenNewLog();
    }

    method ReplaceLevel0(tables: seq<set<Entry>>)
      modifies this`level0
      ensures level0 == tables && Levels() == old(Levels())[0 := Union(tables)]
    {
      level0 := tables;
    }

    lemma LevelZero()
      ensures Levels()[0] == Union(level0)
    {
    }

    // What only memory held is gone.
    method Forget()
      modifies this`mem, this`imm, this`pending, this`work, this`snapshots
      ensures AsState() == old(AsState()).(mem := {}, imm := None, pending := None, work := None,
                                           snapshots := multiset{})
      ensures snapshots == []
    {
      hide Levels;
      mem, imm, pending, work, snapshots := {}, None, None, None, [];
    }

    // The sequence numbers go on behind the last one in the manifest or the logs.
    method TakeSequence(maxSequence: nat)
      modifies this`lastSequence
      ensures lastSequence == if manifestSequence < maxSequence then maxSequence else manifestSequence
      ensures AsState() == old(AsState()).(lastSequence := lastSequence)
    {
      lastSequence := manifestSequence;
      if lastSequence < maxSequence {
        lastSequence := maxSequence;
      }
    }

    // Open's new log, from which the next recovery starts.
    method OpenNewLog()
      modifies this`logs, this`logNumber, this`nextFile, this`manifestLog, this`manifestSequence
      ensures AsState() == WithNewLog(old(AsState()))
    {
      hide Levels;
      hide OneLog;
      logNumber := nextFile;
      nextFile := nextFile + 1;
      logs := OneLog(logNumber);
      manifestLog, manifestSequence := logNumber, lastSequence;
    }

    lemma FilesAreDistinct()
      requires Valid()
      ensures Distinct(mem) && Distinct(Immutable(AsState()))
      ensures forall i :: 0 <= i < |level0| ==> Distinct(level0[i])
      ensures forall i :: 0 <= i < |deeper| ==> Distinct(deeper[i])
    {
      var s := AsState();
      SubsetsAreDistinct(s, Stored(s));
      forall i, e | 0 <= i < |level0| && e in level0[i]
        ensures e in Stored(s)
      {
        InUnion(level0, i, e);
        InUnion(s.levels, 0, e);
      }
      forall i, e | 0 <= i < |deeper| && e in deeper[i]
        ensures e in Stored(s)
      {
        InUnion(s.levels, i + 1, e);
      }
    }

    // Reading the files of level 0 one by one is reading the level.
    lemma FilesReadAsLayers(k: Key, n: nat)
      requires Valid() && Readable(AsState(), n)
      ensures Store.Get([mem, Immutable(AsState())] + level0 + deeper, k, n) == Lookup(Range(history), k, n)
    {
      var s := AsState();
      LayersAreNewerAbove(s);
      SubsetsAreDistinct(s, Stored(s));
      ReadsAreExact(s, k, n);
      hide Inv;
      hide LogsOrdered;
      hide Stored;
      assert Layers(s) == [mem, Immutable(s)] + [Union(level0)] + deeper;
      GetIsLookup(Layers(s), k, n);
      OneRunAsFiles([mem, Immutable(s)], level0, deeper);
      GetIsLookup([mem, Immutable(s)] + level0 + deeper, k, n);
    }
  }

  lemma OneRunAsFiles(above: seq<set<Entry>>, files: seq<set<Entry>>, below: seq<set<Entry>>)
    requires NewerAbove(above + [Union(files)] + below) && NewerAbove(files)
    ensures NewerAbove(above + files + below)
    ensures Union(above + files + below) == Union(above + [Union(files)] + below)
  {
    var a, b := above + files + below, above + [Union(files)] + below;
    var n, m := |above|, |above| + |files|;
    forall i, e: Entry | 0 <= i < |a| && e in a[i]
      ensures e in b[MergedIndex(i, n, m)]
    {
      if n <= i < m {
        assert a[i] == files[i - n];
        InUnion(files, i - n, e);
      }
    }
    forall i, j, e: Entry, f: Entry | 0 <= i < j < |a| && e in a[i] && f in a[j] && e.key == f.key
      ensures e.seqno > f.seqno
    {
      assert e in b[MergedIndex(i, n, m)] && f in b[MergedIndex(j, n, m)];
      if n <= i && j < m {
        assert a[i] == files[i - n] && a[j] == files[j - n];
      }
    }
    forall e: Entry
      ensures e in Union(a) <==> e in Union(b)
    {
      if e in Union(a) {
        var i :| 0 <= i < |a| && e in a[i];
        InUnion(b, MergedIndex(i, n, m), e);
      }
      if e in Union(b) {
        var j :| 0 <= j < |b| && e in b[j];
        if j == n {
          var i :| 0 <= i < |files| && e in files[i];
          InUnion(a, n + i, e);
        } else {
          InUnion(a, if j < n then j else j - 1 + |files|, e);
        }
      }
    }
  }

  // Where the i-th place goes when places n to m are taken as one.
  function MergedIndex(i: nat, n: nat, m: nat): nat
    requires n <= m
  {
    if i < n then i else if i < m then n else i - m + n + 1
  }
}
