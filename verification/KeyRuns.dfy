// Reads key by key over runs whose compactions and moves need not be cut cleanly:
// a key reads right as long as every cut was clean for that key.
module KeyRuns {
  import opened Basics
  import opened Compaction
  import opened CutBoundaries
  import opened Entries
  import opened Store
  import opened VersionSets

  // ----- The layers of a store and what happens to them -----

  // Memtable, immutable memtable and levels, everything ever written, and the
  // highest smallest_snapshot of a compaction.
  datatype Stack = Stack(layers: seq<set<Entry>>, written: set<Entry>, floor: nat)

  // The work of an installation counts layers.
  datatype Change =
    | NewEntry(e: Entry)
    | NewMemTable
    | FlushedTo(layer: nat)
    | CompactedBy(w: Work)
    | MovedDown(layer: nat, file: set<Entry>)
    | Reopened   // both memtables come back as tables of level 0

  ghost predicate Possible(s: Stack, c: Change) {
    && |s.layers| > 2
    && match c
       case NewEntry(e) => forall f :: f in s.written ==> f.seqno < e.seqno
       case NewMemTable => s.layers[1] == {}
       case FlushedTo(layer) =>
         && 2 <= layer < |s.layers|
         && (layer == 2 || forall j, e, f :: 2 <= j <= layer && e in s.layers[j] && f in s.layers[1] ==> e.key != f.key)
       case CompactedBy(w) =>
         2 <= w.level < |s.layers| - 1 && w.upper <= s.layers[w.level] && w.lower <= s.layers[w.level + 1]
       case MovedDown(layer, file) => 2 <= layer < |s.layers| - 1 && file <= s.layers[layer]
       case Reopened => true
  }

  ghost function After(s: Stack, c: Change): Stack
    requires Possible(s, c)
  {
    match c
    case NewEntry(e) => s.(layers := s.layers[0 := s.layers[0] + {e}], written := s.written + {e})
    case NewMemTable => s.(layers := s.layers[1 := s.layers[0]][0 := {}])
    case FlushedTo(layer) => s.(layers := s.layers[layer := s.layers[layer] + s.layers[1]][1 := {}])
    case CompactedBy(w) =>
      s.(layers := Installed(s.layers, w, Outputs(w)), floor := if w.smallest > s.floor then w.smallest else s.floor)
    case MovedDown(layer, file) => s.(layers := Installed(s.layers, Move(layer, file), file))
    case Reopened => s.(layers := s.layers[2 := s.layers[2] + s.layers[1] + s.layers[0]][1 := {}][0 := {}])
  }

  // ----- Clean for a key -----

  ghost predicate CleanFor(k: Key, layers: seq<set<Entry>>, w: Work)
    requires w.level + 1 < |layers|
  {
    && (forall e, o :: e in w.upper && o in layers[w.level] - w.upper && e.key == o.key == k ==> o.seqno > e.seqno)
    && (k in w.base ==>
          forall e, o, j :: e in w.upper + w.lower && w.level + 1 <= j < |layers| && o in layers[j] - w.lower
                            && e.key == o.key == k
            ==> o.seqno > e.seqno)
  }

  ghost predicate CleanChange(k: Key, s: Stack, c: Change)
    requires Possible(s, c)
  {
    match c
    case CompactedBy(w) => CleanFor(k, s.layers, w)
    case MovedDown(layer, file) => CleanFor(k, s.layers, Move(layer, file))
    case _ => true
  }

  // ----- What such changes keep for the key -----

  ghost predicate NewerAboveFor(k: Key, layers: seq<set<Entry>>) {
    forall i, j, e, f :: 0 <= i < j < |layers| && e in layers[i] && f in layers[j] && e.key == f.key == k
      ==> e.seqno > f.seqno
  }

  ghost predicate ReadsRight(k: Key, s: Stack) {
    forall n :: n >= s.floor ==> Lookup(Union(s.layers), k, n) == Lookup(s.written, k, n)
  }

  ghost predicate Right(k: Key, s: Stack) {
    && Distinct(s.written) && Union(s.layers) <= s.written
    && NewerAboveFor(k, s.layers) && ReadsRight(k, s)
  }

  lemma KeyLayerWins(k: Key, layers: seq<set<Entry>>, n: nat)
    requires layers != [] && NewerAboveFor(k, layers) && Distinct(Union(layers)) && Has(layers[0], k, n)
    ensures Lookup(layers[0], k, n) == Lookup(Union(layers), k, n)
  {
    var all, first := Union(layers), layers[0];
    var e :| e in first && e.key == k && e.seqno <= n;
    var top := NewestExists(first, k, n, e);
    forall f | f in all && f.key == k && f.seqno <= n
      ensures f.seqno <= top.seqno
    {
      var i :| 0 <= i < |layers| && f in layers[i];
    }
    UnionUnfold(layers);
    hide Union;
    hide NewerAboveFor;
    assert Finds(all, k, n, top);
    LookupFound(first, k, n, top);
    LookupFound(all, k, n, top);
  }

  // Layers in order for a key read right for it, whatever other keys do.
  lemma {:induction false} GetOfKeyIsLookup(k: Key, layers: seq<set<Entry>>, n: nat)
    requires NewerAboveFor(k, layers) && Distinct(Union(layers))
    ensures Get(layers, k, n) == Lookup(Union(layers), k, n)
  {
    if layers == [] {
      assert Union(layers) == {};
    } else if Has(layers[0], k, n) {
      KeyLayerWins(k, layers, n);
    } else {
      var all, rest := Union(layers), Union(layers[1..]);
      UnionUnfold(layers);
      assert NewerAboveFor(k, layers[1..]);
      GetOfKeyIsLookup(k, layers[1..], n);
      forall e: Entry
        ensures Finds(all, k, n, e) <==> Finds(rest, k, n, e)
      {
      }
      SameFinds(all, rest, k, n);
    }
  }

  // The same entries, arranged otherwise.
  ghost predicate SameEntries(a: seq<set<Entry>>, b: seq<set<Entry>>) {
    forall e: Entry :: e in Union(a) <==> e in Union(b)
  }

  lemma Rearranged(k: Key, s: Stack, t: Stack)
    requires Right(k, s) && t.written == s.written && t.floor == s.floor
    requires SameEntries(s.layers, t.layers) && NewerAboveFor(k, t.layers)
    ensures Right(k, t)
  {
    assert Union(t.layers) == Union(s.layers);
  }

  // Each entry is in the layer it was in, or in a given one.
  lemma UnionMoved(a: seq<set<Entry>>, b: seq<set<Entry>>)
    requires forall i, e: Entry :: 0 <= i < |a| && e in a[i] ==> exists j :: 0 <= j < |b| && e in b[j]
    requires forall j, e: Entry :: 0 <= j < |b| && e in b[j] ==> exists i :: 0 <= i < |a| && e in a[i]
    ensures SameEntries(a, b)
  {
    forall e: Entry
      ensures e in Union(a) <==> e in Union(b)
    {
      if e in Union(a) { var i :| 0 <= i < |a| && e in a[i]; var j :| 0 <= j < |b| && e in b[j]; InUnion(b, j, e); }
      if e in Union(b) { var j :| 0 <= j < |b| && e in b[j]; var i :| 0 <= i < |a| && e in a[i]; InUnion(a, i, e); }
    }
  }

  lemma WriteOrder(k: Key, layers: seq<set<Entry>>, e: Entry)
    requires NewerAboveFor(k, layers) && layers != [] && forall f :: f in Union(layers) ==> f.seqno < e.seqno
    ensures NewerAboveFor(k, layers[0 := layers[0] + {e}])
  {
    forall i, f | 0 <= i < |layers| && f in layers[i]
      ensures f in Union(layers)
    {
      InUnion(layers, i, f);
    }
    hide Union;
  }

  lemma WriteKeeps(k: Key, s: Stack, e: Entry)
    requires Right(k, s) && Possible(s, NewEntry(e))
    ensures Right(k, After(s, NewEntry(e)))
  {
    var t := After(s, NewEntry(e));
    UnionAdd(s.layers, 0, {e});
    WriteOrder(k, s.layers, e);
    hide Union;
    hide NewerAboveFor;
    hide Lookup;
    forall n | n >= t.floor
      ensures Lookup(Union(t.layers), k, n) == Lookup(t.written, k, n)
    {
      AddedToBoth(Union(s.layers), s.written, e, k, n);
    }
  }

  // A newer entry on both sides.
  lemma Added(a: set<Entry>, e: Entry, k: Key, n: nat)
    requires Distinct(a) && forall f :: f in a ==> f.seqno < e.seqno
    ensures Lookup(a + {e}, k, n) == if e.key == k && e.seqno <= n then Outcome(e) else Lookup(a, k, n)
  {
    if e.key == k && e.seqno <= n {
      assert Finds(a + {e}, k, n, e);
      LookupFound(a + {e}, k, n, e);
    } else {
      forall f: Entry
        ensures Finds(a + {e}, k, n, f) <==> Finds(a, k, n, f)
      {
      }
      SameFinds(a + {e}, a, k, n);
    }
  }

  lemma AddedToBoth(a: set<Entry>, b: set<Entry>, e: Entry, k: Key, n: nat)
    requires a <= b && Distinct(b) && (forall f :: f in b ==> f.seqno < e.seqno) && Lookup(a, k, n) == Lookup(b, k, n)
    ensures Lookup(a + {e}, k, n) == Lookup(b + {e}, k, n)
  {
    hide Lookup;
    Added(a, e, k, n);
    Added(b, e, k, n);
  }

  lemma SwitchEntries(layers: seq<set<Entry>>, after: seq<set<Entry>>)
    requires |layers| > 2 && layers[1] == {} && after == layers[1 := layers[0]][0 := {}]
    ensures SameEntries(layers, after)
  {
    forall i, e: Entry | 0 <= i < |layers| && e in layers[i]
      ensures exists j :: 0 <= j < |after| && e in after[j]
    {
      assert e in after[if i == 0 then 1 else i];
    }
    forall j, e: Entry | 0 <= j < |after| && e in after[j]
      ensures exists i :: 0 <= i < |layers| && e in layers[i]
    {
      assert e in layers[if j == 1 then 0 else j];
    }
    UnionMoved(layers, after);
  }

  lemma SwitchOrder(k: Key, layers: seq<set<Entry>>, after: seq<set<Entry>>)
    requires NewerAboveFor(k, layers) && |layers| > 2 && layers[1] == {} && after == layers[1 := layers[0]][0 := {}]
    ensures NewerAboveFor(k, after)
  {
    forall i, j, e: Entry, f: Entry | 0 <= i < j < |after| && e in after[i] && f in after[j] && e.key == f.key == k
      ensures e.seqno > f.seqno
    {
      assert e in layers[if i == 1 then 0 else i] && f in layers[j];
    }
  }

  lemma SwitchKeeps(k: Key, s: Stack)
    requires Right(k, s) && Possible(s, NewMemTable)
    ensures Right(k, After(s, NewMemTable))
  {
    var t := After(s, NewMemTable);
    SwitchEntries(s.layers, t.layers);
    SwitchOrder(k, s.layers, t.layers);
    hide *;
    Rearranged(k, s, t);
  }

  lemma FlushEntries(layers: seq<set<Entry>>, layer: nat, after: seq<set<Entry>>)
    requires 2 <= layer < |layers| && after == layers[layer := layers[layer] + layers[1]][1 := {}]
    ensures SameEntries(layers, after)
  {
    forall i, e: Entry | 0 <= i < |layers| && e in layers[i]
      ensures exists j :: 0 <= j < |after| && e in after[j]
    {
      assert e in after[if i == 1 then layer else i];
    }
    forall j, e: Entry | 0 <= j < |after| && e in after[j]
      ensures exists i :: 0 <= i < |layers| && e in layers[i]
    {
      assert e in layers[j] || e in layers[1];
    }
    UnionMoved(layers, after);
  }

  lemma FlushOrder(k: Key, layers: seq<set<Entry>>, layer: nat, after: seq<set<Entry>>)
    requires NewerAboveFor(k, layers) && 2 <= layer < |layers|
    requires after == layers[layer := layers[layer] + layers[1]][1 := {}]
    requires layer == 2 || forall j, e, f :: 2 <= j <= layer && e in layers[j] && f in layers[1] ==> e.key != f.key
    ensures NewerAboveFor(k, after)
  {
    forall i, j, e: Entry, f: Entry | 0 <= i < j < |after| && e in after[i] && f in after[j] && e.key == f.key == k
      ensures e.seqno > f.seqno
    {
      assert e in layers[i] || (i == layer && e in layers[1]);
      assert f in layers[j] || (j == layer && f in layers[1]);
    }
  }

  lemma FlushKeeps(k: Key, s: Stack, layer: nat)
    requires Right(k, s) && Possible(s, FlushedTo(layer))
    ensures Right(k, After(s, FlushedTo(layer)))
  {
    var t := After(s, FlushedTo(layer));
    FlushEntries(s.layers, layer, t.layers);
    FlushOrder(k, s.layers, layer, t.layers);
    hide *;
    Rearranged(k, s, t);
  }

  // One memtable after the other goes to level 0.
  lemma ReopenKeeps(k: Key, s: Stack)
    requires Right(k, s) && Possible(s, Reopened)
    ensures Right(k, After(s, Reopened))
  {
    FlushKeeps(k, s, 2);
    var first := After(s, FlushedTo(2));
    SwitchKeeps(k, first);
    var second := After(first, NewMemTable);
    FlushKeeps(k, second, 2);
    assert After(second, FlushedTo(2)).layers == After(s, Reopened).layers;
  }

  // The entries of the key after an installation.
  lemma KeyEntriesAfter(k: Key, layers: seq<set<Entry>>, w: Work, outputs: set<Entry>, e: Entry)
    requires NewerAboveFor(k, layers) && w.level + 1 < |layers| && e.key == k
    requires w.upper <= layers[w.level] && w.lower <= layers[w.level + 1]
    ensures e in Union(Installed(layers, w, outputs)) <==> e in Union(layers) - (w.upper + w.lower) + outputs
  {
    var after := Installed(layers, w, outputs);
    if e in Union(layers) - (w.upper + w.lower) + outputs {
      if e in outputs {
        InUnion(after, w.level + 1, e);
      } else {
        var j :| 0 <= j < |layers| && e in layers[j];
        InUnion(after, j, e);
      }
    }
    if e in Union(after) && e !in outputs {
      var j :| 0 <= j < |after| && e in after[j];
      InUnion(layers, j, e);
      assert e in layers[j];
    }
  }

  lemma OrderAfter(k: Key, layers: seq<set<Entry>>, w: Work, outputs: set<Entry>)
    requires NewerAboveFor(k, layers) && w.level + 1 < |layers|
    requires w.upper <= layers[w.level] && w.lower <= layers[w.level + 1]
    requires CleanFor(k, layers, w) && outputs <= w.upper + w.lower
    ensures NewerAboveFor(k, Installed(layers, w, outputs))
  {
    var after := Installed(layers, w, outputs);
    forall i, j, e: Entry, f: Entry | 0 <= i < j < |after| && e in after[i] && f in after[j] && e.key == f.key == k
      ensures e.seqno > f.seqno
    {
      assert e in outputs ==> e in layers[w.level] || e in layers[w.level + 1];
      assert f in outputs ==> f in layers[w.level] || f in layers[w.level + 1];
    }
  }

  lemma InputsStored(layers: seq<set<Entry>>, w: Work)
    requires w.level + 1 < |layers| && w.upper <= layers[w.level] && w.lower <= layers[w.level + 1]
    ensures w.upper + w.lower <= Union(layers)
  {
    forall e | e in w.upper + w.lower
      ensures e in Union(layers)
    {
      InUnion(layers, if e in w.upper then w.level else w.level + 1, e);
    }
  }

  // A cut that is clean for the key makes its dropped deletions safe.
  lemma CleanIsSafe(k: Key, layers: seq<set<Entry>>, w: Work)
    requires NewerAboveFor(k, layers) && Distinct(Union(layers)) && w.level + 1 < |layers|
    requires w.upper <= layers[w.level] && w.lower <= layers[w.level + 1] && CleanFor(k, layers, w)
    ensures DeletionsOfAreSafe(k, w.upper + w.lower, Union(layers) - (w.upper + w.lower), w.smallest, w.base)
  {
    InputsStored(layers, w);
    var input, others := w.upper + w.lower, Union(layers) - (w.upper + w.lower);
    forall d: Entry, o: Entry | d.key == k
      ensures !Resurrects(input, others, w.smallest, w.base, d, o)
    {
      if d in input && o in others && o.key == k && k in w.base {
        NotBelow(k, layers, w, d, o);
      }
    }
  }

  lemma NotBelow(k: Key, layers: seq<set<Entry>>, w: Work, d: Entry, o: Entry)
    requires NewerAboveFor(k, layers) && Distinct(Union(layers)) && w.level + 1 < |layers|
    requires w.upper <= layers[w.level] && w.lower <= layers[w.level + 1] && CleanFor(k, layers, w)
    requires d in w.upper + w.lower && o in Union(layers) - (w.upper + w.lower) && d.key == o.key == k && k in w.base
    ensures o.seqno > d.seqno
  {
    var j :| 0 <= j < |layers| && o in layers[j];
    assert d in layers[if d in w.upper then w.level else w.level + 1];
  }

  lemma SameKeyEntries(a: set<Entry>, b: set<Entry>, k: Key, n: nat)
    requires Distinct(a) && Distinct(b) && forall e: Entry :: e.key == k ==> (e in a <==> e in b)
    ensures Lookup(a, k, n) == Lookup(b, k, n)
  {
    forall e: Entry
      ensures Finds(a, k, n, e) <==> Finds(b, k, n, e)
    {
    }
    SameFinds(a, b, k, n);
  }

  lemma EntriesOfKeyAfter(k: Key, layers: seq<set<Entry>>, w: Work, outputs: set<Entry>)
    requires NewerAboveFor(k, layers) && w.level + 1 < |layers| && w.upper <= layers[w.level]
    requires w.lower <= layers[w.level + 1]
    ensures forall e: Entry :: e.key == k ==>
      (e in Union(Installed(layers, w, outputs)) <==> e in outputs + (Union(layers) - (w.upper + w.lower)))
  {
    forall e: Entry | e.key == k
      ensures e in Union(Installed(layers, w, outputs)) <==> e in outputs + (Union(layers) - (w.upper + w.lower))
    {
      KeyEntriesAfter(k, layers, w, outputs, e);
    }
  }

  lemma DropsReadSame(k: Key, all: set<Entry>, after: set<Entry>, w: Work, n: nat)
    requires Distinct(all) && Distinct(after) && w.upper + w.lower <= all && n >= w.smallest
    requires forall e: Entry :: e.key == k ==> (e in after <==> e in Outputs(w) + (all - (w.upper + w.lower)))
    requires DeletionsOfAreSafe(k, w.upper + w.lower, all - (w.upper + w.lower), w.smallest, w.base)
    ensures Lookup(after, k, n) == Lookup(all, k, n)
  {
    var input, others, outputs := w.upper + w.lower, all - (w.upper + w.lower), Outputs(w);
    OutputsAreInputs(w);
    assert input + others == all;
    assert outputs == Kept(input, w.smallest, w.base);
    hide Kept;
    hide Outputs;
    hide DeletionsOfAreSafe;
    hide Lookup;
    SameKeyEntries(after, outputs + others, k, n);
    DropsOfAreUnseen(input, others, w.smallest, w.base, k, n);
  }

  lemma CompactionReads(k: Key, layers: seq<set<Entry>>, w: Work, n: nat)
    requires NewerAboveFor(k, layers) && Distinct(Union(layers)) && w.level + 1 < |layers|
    requires w.upper <= layers[w.level] && w.lower <= layers[w.level + 1] && CleanFor(k, layers, w)
    requires n >= w.smallest && Distinct(Union(Installed(layers, w, Outputs(w))))
    ensures Lookup(Union(Installed(layers, w, Outputs(w))), k, n) == Lookup(Union(layers), k, n)
  {
    InputsStored(layers, w);
    CleanIsSafe(k, layers, w);
    EntriesOfKeyAfter(k, layers, w, Outputs(w));
    var all, after := Union(layers), Union(Installed(layers, w, Outputs(w)));
    hide *;
    DropsReadSame(k, all, after, w, n);
  }

  lemma RightAt(k: Key, s: Stack, n: nat)
    requires ReadsRight(k, s) && n >= s.floor
    ensures Lookup(Union(s.layers), k, n) == Lookup(s.written, k, n)
  {
  }

  lemma FewerDistinct(a: set<Entry>, b: set<Entry>)
    requires Distinct(b) && a <= b
    ensures Distinct(a)
  {
  }

  ghost predicate Results(s: Stack, w: Work, t: Stack) {
    && w.level + 1 < |s.layers| && w.upper <= s.layers[w.level] && w.lower <= s.layers[w.level + 1]
    && t.layers == Installed(s.layers, w, Outputs(w)) && t.written == s.written
    && t.floor >= s.floor && t.floor >= w.smallest
  }

  lemma ResultsStored(k: Key, s: Stack, w: Work, t: Stack)
    requires Right(k, s) && Results(s, w, t)
    ensures Union(t.layers) <= t.written && Distinct(Union(s.layers)) && Distinct(Union(t.layers))
  {
    hide NewerAboveFor;
    hide ReadsRight;
    hide Union;
    hide Installed;
    hide Outputs;
    hide Distinct;
    InputsStored(s.layers, w);
    OutputsAreInputs(w);
    AfterIsStored(s.layers, w, Outputs(w));
    FewerDistinct(Union(s.layers), s.written);
    FewerDistinct(Union(t.layers), s.written);
  }

  lemma ResultsRead(k: Key, s: Stack, w: Work, t: Stack)
    requires Right(k, s) && Results(s, w, t) && CleanFor(k, s.layers, w)
    ensures ReadsRight(k, t)
  {
    ResultsStored(k, s, w, t);
    assert NewerAboveFor(k, s.layers) && ReadsRight(k, s);
    hide *;
    forall n: nat | n >= t.floor
      ensures Lookup(Union(t.layers), k, n) == Lookup(t.written, k, n)
    {
      ResultsReadAt(k, s, w, t, n);
    }
    RightFrom(k, t);
  }

  lemma ResultsReadAt(k: Key, s: Stack, w: Work, t: Stack, n: nat)
    requires NewerAboveFor(k, s.layers) && ReadsRight(k, s) && Distinct(Union(s.layers)) && Distinct(Union(t.layers))
    requires Results(s, w, t) && CleanFor(k, s.layers, w) && n >= t.floor
    ensures Lookup(Union(t.layers), k, n) == Lookup(t.written, k, n)
  {
    hide Union;
    hide NewerAboveFor;
    hide CleanFor;
    hide Installed;
    hide Outputs;
    CompactionReads(k, s.layers, w, n);
    RightAt(k, s, n);
  }

  lemma CompactionKeeps(k: Key, s: Stack, w: Work)
    requires Right(k, s) && Possible(s, CompactedBy(w)) && CleanFor(k, s.layers, w)
    ensures Right(k, After(s, CompactedBy(w)))
  {
    hide Union;
    hide ReadsRight;
    hide Distinct;
    hide NewerAboveFor;
    hide CleanFor;
    hide Installed;
    hide Outputs;
    hide Right;
    var t := After(s, CompactedBy(w));
    assert Results(s, w, t);
    ResultsRight(k, s, w, t);
  }

  lemma ResultsRight(k: Key, s: Stack, w: Work, t: Stack)
    requires Right(k, s) && Results(s, w, t) && CleanFor(k, s.layers, w)
    ensures Right(k, t)
  {
    hide Union;
    hide ReadsRight;
    hide Distinct;
    hide NewerAboveFor;
    hide CleanFor;
    hide Installed;
    hide Outputs;
    ResultsStored(k, s, w, t);
    ResultsRead(k, s, w, t);
    OutputsAreInputs(w);
    OrderAfter(k, s.layers, w, Outputs(w));
  }

  lemma RightFrom(k: Key, t: Stack)
    requires forall n :: n >= t.floor ==> Lookup(Union(t.layers), k, n) == Lookup(t.written, k, n)
    ensures ReadsRight(k, t)
  {
  }

  lemma AfterIsStored(layers: seq<set<Entry>>, w: Work, outputs: set<Entry>)
    requires w.level + 1 < |layers| && outputs <= w.upper + w.lower <= Union(layers)
    ensures Union(Installed(layers, w, outputs)) <= Union(layers)
  {
    var after := Installed(layers, w, outputs);
    forall e | e in Union(after)
      ensures e in Union(layers)
    {
      var j :| 0 <= j < |after| && e in after[j];
      if e !in outputs { InUnion(layers, j, e); }
    }
  }

  lemma MoveKeeps(k: Key, s: Stack, layer: nat, file: set<Entry>)
    requires Right(k, s) && Possible(s, MovedDown(layer, file)) && CleanFor(k, s.layers, Move(layer, file))
    ensures Right(k, After(s, MovedDown(layer, file)))
  {
    var t, w := After(s, MovedDown(layer, file)), Move(layer, file);
    var all, after := Union(s.layers), Union(t.layers);
    InputsStored(s.layers, w);
    OrderAfter(k, s.layers, w, file);
    AfterIsStored(s.layers, w, file);
    forall e: Entry | e.key == k
      ensures e in after <==> e in all
    {
      KeyEntriesAfter(k, s.layers, w, file, e);
    }
    hide Union;
    hide Installed;
    forall n | n >= t.floor
      ensures Lookup(after, k, n) == Lookup(t.written, k, n)
    {
      SameKeyEntries(after, all, k, n);
    }
  }

  lemma ChangeKeeps(k: Key, s: Stack, c: Change)
    requires Right(k, s) && Possible(s, c) && CleanChange(k, s, c)
    ensures Right(k, After(s, c))
  {
    hide Right;
    hide Possible;
    hide After;
    match c
    case NewEntry(e) => WriteKeeps(k, s, e);
    case NewMemTable => SwitchKeeps(k, s);
    case FlushedTo(layer) => FlushKeeps(k, s, layer);
    case CompactedBy(w) => CompactionKeeps(k, s, w);
    case MovedDown(layer, file) => MoveKeeps(k, s, layer, file);
    case Reopened => ReopenKeeps(k, s);
  }

  // ----- Runs -----

  ghost predicate Leads(s: Stack, changes: seq<Change>, t: Stack)
    decreases |changes|
  {
    if changes == [] then s == t
    else Possible(s, changes[0]) && Leads(After(s, changes[0]), changes[1..], t)
  }

  // Every cut of the run is clean for the key.
  ghost predicate CleanRun(k: Key, s: Stack, changes: seq<Change>)
    decreases |changes|
  {
    changes == [] || !Possible(s, changes[0])
    || (CleanChange(k, s, changes[0]) && CleanRun(k, After(s, changes[0]), changes[1..]))
  }

  lemma {:induction false} RunKeeps(k: Key, s: Stack, changes: seq<Change>, t: Stack)
    requires Right(k, s) && Leads(s, changes, t) && CleanRun(k, s, changes)
    ensures Right(k, t)
    decreases |changes|
  {
    if changes != [] {
      ChangeKeeps(k, s, changes[0]);
      hide Right;
      hide Possible;
      hide After;
      hide CleanChange;
      RunKeeps(k, After(s, changes[0]), changes[1..], t);
    }
  }

  function Empty(layers: nat): Stack {
    Stack(seq(layers, _ => {}), {}, 0)
  }

  // So over any run from an empty store, whatever cuts it makes, a key for which
  // they all were clean reads as it was written.
  lemma CleanKeysReadRight(k: Key, layers: nat, changes: seq<Change>, t: Stack, n: nat)
    requires Leads(Empty(layers), changes, t) && CleanRun(k, Empty(layers), changes) && n >= t.floor
    ensures Get(t.layers, k, n) == Lookup(t.written, k, n)
  {
    var s := Empty(layers);
    assert Union(s.layers) == {};
    RunKeeps(k, s, changes, t);
    hide Leads;
    hide CleanRun;
    hide Get;
    hide Lookup;
    assert Distinct(Union(t.layers));
    GetOfKeyIsLookup(k, t.layers, n);
  }

  // ----- Which keys a picked compaction is not clean for -----

  // The key at which the inputs end goes on in the table behind.
  ghost predicate SplitsAt(files: seq<Table>, inputs: seq<Table>, k: Key) {
    SplitsKey(files, inputs) && inputs != [] && inputs[|inputs| - 1].largest.key == k
  }

  ghost predicate NewerStaysFor(k: Key, files: seq<Table>, inputs: seq<Table>) {
    forall e, o :: e in InTables(inputs) && o in InTables(files) - InTables(inputs) && e.key == o.key == k
      ==> o.seqno > e.seqno
  }

  lemma UpperCleanForIff(k: Key, less: KeyOrder, level: nat, files: seq<Table>, inputs: seq<Table>)
    requires LevelOk(less, level, files) && inputs != [] && Whole(less, level, files, inputs)
    ensures NewerStaysFor(k, files, inputs) <==> level == 0 || !SplitsAt(files, inputs, k)
  {
    if level == 0 {
      NewerStaysIff(less, level, files, inputs);
    } else {
      var a: nat, b: nat :| Stretch(files, a, b, inputs);
      assert LevelOk(less, 1, files) && files[b - 1] == inputs[|inputs| - 1];
      hide LevelOk;
      hide Whole;
      if n: nat :| SplitAt(files, inputs, n) {
        BehindIsOlder(less, files, a, b, inputs, n);
      }
      hide SplitAt;
      hide InTables;
      forall e, o | e in InTables(inputs) && o in InTables(files) - InTables(inputs) && e.key == o.key == k
                    && o.seqno <= e.seqno
        ensures SplitsAt(files, inputs, k)
      {
        OlderIsBehind(less, files, a, b, inputs, e, o);
      }
    }
  }

  ghost predicate NoneDroppedFor(k: Key, next: seq<Table>, upper: seq<Table>, lower: seq<Table>) {
    forall e, o ::
      e in InTables(upper) + InTables(lower) && o in InTables(next) - InTables(lower) && e.key == o.key == k
      ==> o.seqno > e.seqno
  }

  lemma SplitDropsOver(k: Key, less: KeyOrder, next: seq<Table>, upper: seq<Table>, lower: seq<Table>, a: nat, b: nat)
    requires LevelOk(less, 1, next) && Stretch(next, a, b, lower) && SplitsAt(next, lower, k)
    ensures !NoneDroppedFor(k, next, upper, lower)
  {
    var n: nat :| SplitAt(next, lower, n);
    BehindIsOlder(less, next, a, b, lower, n);
    assert next[b - 1] == lower[|lower| - 1];
    var e, o := next[b - 1].largest, next[b].smallest;
    hide InTables;
    assert e in InTables(upper) + InTables(lower) && o in InTables(next) - InTables(lower);
  }

  lemma LowerCleanForIff(k: Key, less: KeyOrder, next: seq<Table>, upper: seq<Table>, lower: seq<Table>)
    requires LevelOk(less, 1, next) && upper != [] && (forall t :: t in upper ==> TableOk(less, t))
    requires lower == Overlapping(less, next, RangeOf(less, upper))
    ensures NoneDroppedFor(k, next, upper, lower) <==> !SplitsAt(next, lower, k)
  {
    var a, b := OverlappingIsStretch(less, next, RangeOf(less, upper));
    if SplitsAt(next, lower, k) {
      hide *;
      SplitDropsOver(k, less, next, upper, lower, a, b);
    } else {
      hide LevelOk;
      hide Overlapping;
      hide TableOk;
      hide InTables;
      forall e, o | e in InTables(upper) + InTables(lower) && o in InTables(next) - InTables(lower)
                    && e.key == o.key == k
        ensures o.seqno > e.seqno
      {
        if o.seqno <= e.seqno {
          StaysBehind(less, next, upper, a, b, lower, e, o);
          IsSplit(next, lower, b);
        }
      }
    }
  }

  lemma CutForIs(k: Key, tables: seq<seq<Table>>, level: nat, upper: seq<Table>, lower: seq<Table>, smallest: nat,
                 base: set<Key>)
    requires level + 1 < |tables| && BaseOk(tables, level, upper, lower, base)
    ensures CleanFor(k, Contents(tables), Work(level, InTables(upper), InTables(lower), smallest, base))
       <==> NewerStaysFor(k, tables[level], upper) && (k in base ==> NoneDroppedFor(k, tables[level + 1], upper, lower))
  {
    hide InTables;
  }

  // At most two: the key the upper inputs end with, when it is split, and the key
  // the lower ones end with, when it is split and taken to be at its base level.
  lemma PickedIsCleanForIff(k: Key, less: KeyOrder, tables: seq<seq<Table>>, level: nat, upper: seq<Table>,
                            lower: seq<Table>, smallest: nat, base: set<Key>)
    requires level + 1 < |tables| && forall j :: 0 <= j < |tables| ==> LevelOk(less, j, tables[j])
    requires upper != [] && Whole(less, level, tables[level], upper)
    requires lower == Overlapping(less, tables[level + 1], RangeOf(less, upper))
    requires BaseOk(tables, level, upper, lower, base)
    ensures CleanFor(k, Contents(tables), Work(level, InTables(upper), InTables(lower), smallest, base))
       <==> (level == 0 || !SplitsAt(tables[level], upper, k)) && !(k in base && SplitsAt(tables[level + 1], lower, k))
  {
    assert LevelOk(less, level, tables[level]) && LevelOk(less, level + 1, tables[level + 1]);
    InputsAreTables(less, level, tables[level], upper);
    UpperCleanForIff(k, less, level, tables[level], upper);
    LowerCleanForIff(k, less, tables[level + 1], upper, lower);
    hide LevelOk;
    hide InTables;
    hide Whole;
    hide SplitsAt;
    hide Overlapping;
    hide CleanFor;
    hide BaseOk;
    hide NewerStaysFor;
    hide NoneDroppedFor;
    CutForIs(k, tables, level, upper, lower, smallest, base);
  }
}
