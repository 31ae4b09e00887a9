// Merging tables: which entries a compaction drops, and why no reader at or
// above the oldest snapshot can tell.
module Compaction {
  import opened Basics
  import opened Entries
  import opened Sequences

  // ----- What a reader finds in a set of entries -----

  ghost predicate Finds(es: set<Entry>, k: Key, s: nat, e: Entry) {
    Newest(es, s, e) && e.key == k
  }

  // The value of a key at sequence number s: that of the newest entry at or
  // below s, and none when there is no such entry or it is a deletion.
  ghost function Lookup(es: set<Entry>, k: Key, s: nat): Option<Value> {
    if e :| Finds(es, k, s, e) && e.kind.Put? then Some(e.value) else None
  }

  lemma LookupFound(es: set<Entry>, k: Key, s: nat, e: Entry)
    requires Distinct(es) && Finds(es, k, s, e)
    ensures Lookup(es, k, s) == if e.kind.Put? then Some(e.value) else None
  {
    forall f | Finds(es, k, s, f)
      ensures f == e
    {
    }
  }

  lemma {:induction false} NewestExists(es: set<Entry>, k: Key, s: nat, e: Entry) returns (n: Entry)
    requires e in es && e.key == k && e.seqno <= s
    ensures Finds(es, k, s, n)
    decreases es
  {
    if f :| f in es && f.key == k && f.seqno <= s && f.seqno > e.seqno {
      n := NewestExists(es - {e}, k, s, f);
    } else {
      n := e;
    }
  }

  // The sorted map of an iterator holds just what reads find.
  lemma ViewIsLookup(es: set<Entry>, k: Key, s: nat)
    requires Distinct(es)
    ensures Lookup(es, k, s) == if k in View(es, s) then Some(View(es, s)[k]) else None
  {
    if e :| Finds(es, k, s, e) && e.kind.Put? {
      LookupFound(es, k, s, e);
      assert e in es && Newest(es, s, e) && e.key in View(es, s);
      var f :| f in es && Newest(es, s, f) && f.kind.Put? && f.key == k && View(es, s)[k] == f.value;
      assert f == e;
    }
  }

  // ----- The drop rules -----

  // (A) hidden by a newer entry for the same key that every reader sees.
  ghost predicate Hidden(input: set<Entry>, smallest: nat, e: Entry) {
    exists p :: p in input && p.key == e.key && e.seqno < p.seqno <= smallest
  }

  // (B) a deletion every reader sees, of a key with no data further down.
  predicate Obsolete(smallest: nat, base: set<Key>, e: Entry) {
    e.kind.Deletion? && e.seqno <= smallest && e.key in base
  }

  ghost function Kept(input: set<Entry>, smallest: nat, base: set<Key>): set<Entry> {
    set e | e in input && !Hidden(input, smallest, e) && !Obsolete(smallest, base, e)
  }

  // What is kept is what some reader at or above the smallest snapshot may need of the
  // inputs: all that is newer than it, and of each key the one entry it sees there,
  // which is dropped just when it is a deletion of a base key.
  lemma KeptIsNeeded(input: set<Entry>, smallest: nat, base: set<Key>)
    requires Distinct(input)
    ensures var kept := Kept(input, smallest, base);
      && kept <= input
      && (forall e :: e in input && e.seqno > smallest ==> e in kept)
      && (forall e, f :: e in kept && f in kept && e.key == f.key && e.seqno <= smallest && f.seqno <= smallest
            ==> e == f)
      && (forall e :: e in input && e.seqno <= smallest ==>
            (e in kept <==> Finds(input, e.key, smallest, e) && !(e.kind.Deletion? && e.key in base)))
  {
    var kept := Kept(input, smallest, base);
    forall e | e in input && e.seqno <= smallest
      ensures !Hidden(input, smallest, e) <==> Finds(input, e.key, smallest, e)
    {
    }
    forall e, f | e in kept && f in kept && e.key == f.key && e.seqno <= smallest && f.seqno <= smallest
      ensures e == f
    {
      assert e.seqno < f.seqno ==> Hidden(input, smallest, e);
      assert f.seqno < e.seqno ==> Hidden(input, smallest, f);
    }
  }

  // n is a deletion the rules drop although a reader at the smallest snapshot
  // still needs it: of the entries outside the inputs, the next older one of its
  // key is a put.
  ghost predicate Resurrects(input: set<Entry>, others: set<Entry>, smallest: nat, base: set<Key>, n: Entry, o: Entry) {
    && n in input && Obsolete(smallest, base, n) && !Hidden(input + others, smallest, n)
    && Finds(others, n.key, n.seqno, o) && o.kind.Put?
  }

  ghost predicate DeletionsAreSafe(input: set<Entry>, others: set<Entry>, smallest: nat, base: set<Key>) {
    forall n, o :: !Resurrects(input, others, smallest, base, n, o)
  }

  ghost predicate DeletionsOfAreSafe(k: Key, input: set<Entry>, others: set<Entry>, smallest: nat, base: set<Key>) {
    forall n: Entry, o: Entry :: n.key == k ==> !Resurrects(input, others, smallest, base, n, o)
  }

  // Rule (A) is safe whatever lies outside the inputs, rule (B) when no put of
  // the key comes next below the deletion; then no reader of the key at or above
  // the smallest snapshot can tell the inputs from what is kept of them.
  lemma DropsOfAreUnseen(input: set<Entry>, others: set<Entry>, smallest: nat, base: set<Key>, k: Key, s: nat)
    requires Distinct(input + others) && input !! others
    requires DeletionsOfAreSafe(k, input, others, smallest, base)
    requires s >= smallest
    ensures Lookup(Kept(input, smallest, base) + others, k, s) == Lookup(input + others, k, s)
  {
    var before, after := input + others, Kept(input, smallest, base) + others;
    if e :| e in before && e.key == k && e.seqno <= s {
      var n := NewestExists(before, k, s, e);
      LookupFound(before, k, s, n);
      if n in after {
        assert Finds(after, k, s, n);
        LookupFound(after, k, s, n);
      } else {
        assert !Hidden(before, smallest, n);
        assert Obsolete(smallest, base, n);
        if f :| Finds(after, k, s, f) && f.kind.Put? {
          assert f in input ==> Hidden(input, smallest, f);
          assert Resurrects(input, others, smallest, base, n, f);
        }
      }
    }
  }

  lemma DropsAreUnseen(input: set<Entry>, others: set<Entry>, smallest: nat, base: set<Key>, k: Key, s: nat)
    requires Distinct(input + others) && input !! others
    requires DeletionsAreSafe(input, others, smallest, base)
    requires s >= smallest
    ensures Lookup(Kept(input, smallest, base) + others, k, s) == Lookup(input + others, k, s)
  {
    DropsOfAreUnseen(input, others, smallest, base, k, s);
  }

  // And only then: a deletion dropped above a put brings the put back to life
  // for the reader at the smallest snapshot.
  lemma UnsafeDropIsSeen(input: set<Entry>, others: set<Entry>, smallest: nat, base: set<Key>, n: Entry, o: Entry)
    requires Distinct(input + others) && input !! others
    requires Resurrects(input, others, smallest, base, n, o)
    ensures Lookup(input + others, n.key, smallest) == None
    ensures Lookup(Kept(input, smallest, base) + others, n.key, smallest) == Some(o.value)
  {
    var before, after := input + others, Kept(input, smallest, base) + others;
    assert Finds(before, n.key, smallest, n);
    LookupFound(before, n.key, smallest, n);
    assert forall f :: f in input && f.key == n.key && f.seqno < n.seqno ==> Hidden(input, smallest, f);
    assert forall f :: f in before && f.key == n.key && n.seqno < f.seqno ==> f.seqno > smallest;
    assert Finds(after, n.key, smallest, o);
    LookupFound(after, n.key, smallest, o);
  }

  lemma DropsAreUnseenIff(input: set<Entry>, others: set<Entry>, smallest: nat, base: set<Key>)
    requires Distinct(input + others) && input !! others
    ensures DeletionsAreSafe(input, others, smallest, base)
       <==> forall k: Key, s: nat :: s >= smallest
              ==> Lookup(Kept(input, smallest, base) + others, k, s) == Lookup(input + others, k, s)
  {
    if DeletionsAreSafe(input, others, smallest, base) {
      forall k: Key, s: nat | s >= smallest
        ensures Lookup(Kept(input, smallest, base) + others, k, s) == Lookup(input + others, k, s)
      {
        DropsAreUnseen(input, others, smallest, base, k, s);
      }
    } else {
      var n, o :| Resurrects(input, others, smallest, base, n, o);
      UnsafeDropIsSeen(input, others, smallest, base, n, o);
    }
  }

  // ----- The compaction loop -----

  const NUM_LEVELS := 7

  // How far down the table of a memtable may go.
  const MAX_MEM_COMPACT_LEVEL := 2

  datatype FileMetaData = FileMetaData(smallest: Key, largest: Key)

  predicate Covers(less: KeyOrder, f: FileMetaData, k: Key) {
    !less(k, f.smallest) && !less(f.largest, k)
  }

  // Files of one level, in key order; neighbours may share a user key.
  ghost predicate InOrder(less: KeyOrder, files: seq<FileMetaData>) {
    && (forall i :: 0 <= i < |files| ==> !less(files[i].largest, files[i].smallest))
    && (forall i, j :: 0 <= i < j < |files| ==> !less(files[j].smallest, files[i].largest))
  }

  function Flat(outputs: seq<seq<Entry>>): seq<Entry> {
    if outputs == [] then [] else Flat(outputs[..|outputs| - 1]) + outputs[|outputs| - 1]
  }

  lemma FlatOneMore(outputs: seq<seq<Entry>>, output: seq<Entry>)
    ensures Flat(outputs + [output]) == Flat(outputs) + output
  {
    assert (outputs + [output])[..|outputs|] == outputs;
  }

  class Compactor {
    const less: KeyOrder
    const level: nat
    const files: seq<seq<FileMetaData>>
    var levelPtrs: seq<nat>

    ghost predicate Valid()
      reads this
    {
      && TotalOrder(less)
      && |files| == |levelPtrs| == NUM_LEVELS
      && forall lvl :: level + 2 <= lvl < NUM_LEVELS ==> InOrder(less, files[lvl]) && levelPtrs[lvl] <= |files[lvl]|
    }

    // The pointers have only passed files that lie before the key.
    ghost predicate NotPast(key: Key)
      requires Valid()
      reads this
    {
      forall lvl, i :: level + 2 <= lvl < NUM_LEVELS && 0 <= i < levelPtrs[lvl] ==> less(files[lvl][i].largest, key)
    }

    // No file at a level below the outputs covers the key.
    predicate IsBase(key: Key)
      requires |files| == NUM_LEVELS
    {
      forall lvl, i :: level + 2 <= lvl < NUM_LEVELS && 0 <= i < |files[lvl]| ==> !Covers(less, files[lvl][i], key)
    }

    constructor (less: KeyOrder, level: nat, files: seq<seq<FileMetaData>>)
      requires TotalOrder(less) && |files| == NUM_LEVELS
      requires forall lvl :: level + 2 <= lvl < NUM_LEVELS ==> InOrder(less, files[lvl])
      ensures this.less == less && this.level == level && this.files == files
      ensures Valid() && forall key :: NotPast(key)
    {
      this.less, this.level, this.files := less, level, files;
      levelPtrs := seq(NUM_LEVELS, _ => 0);
    }

    // Keys must be asked about in order, since the level pointers only move on.
    method IsBaseLevelForKey(key: Key) returns (b: bool)
      requires Valid() && NotPast(key)
      modifies this`levelPtrs
      ensures Valid() && NotPast(key)
      ensures b <==> IsBase(key)
    {
      var lvl := level + 2;
      while lvl < NUM_LEVELS
        invariant Valid() && NotPast(key) && level + 2 <= lvl
        invariant forall l, i :: level + 2 <= l < lvl && l < NUM_LEVELS && 0 <= i < |files[l]|
                    ==> !Covers(less, files[l][i], key)
      {
        while levelPtrs[lvl] < |files[lvl]|
          invariant Valid() && NotPast(key)
          invariant level + 2 <= lvl < NUM_LEVELS
          decreases |files[lvl]| - levelPtrs[lvl]
        {
          var f := files[lvl][levelPtrs[lvl]];
          if !less(f.largest, key) {
            // No file before this one can cover the key, nor any after it.
            if !less(key, f.smallest) {
              assert Covers(less, files[lvl][levelPtrs[lvl]], key);
              return false;
            }
            break;
          }
          levelPtrs := levelPtrs[lvl := levelPtrs[lvl] + 1];
        }
        forall i | 0 <= i < |files[lvl]|
          ensures !Covers(less, files[lvl][i], key)
        {
          var p := levelPtrs[lvl];
          assert i > p ==> !less(files[lvl][i].smallest, files[lvl][p].largest);
          assert i > p ==> !less(files[lvl][p].largest, files[lvl][p].smallest);
        }
        lvl := lvl + 1;
      }
      return true;
    }

    // The rules, told by position: the entry before one in the input decides (A).
    predicate HiddenAt(input: seq<Entry>, smallest: nat, i: nat)
      requires i < |input|
    {
      i > 0 && input[i - 1].key == input[i].key && input[i - 1].seqno <= smallest
    }

    lemma HiddenIsHiddenAt(input: seq<Entry>, smallest: nat, i: nat)
      requires TotalOrder(less) && Sorted(less, input) && i < |input|
      ensures Hidden((set e | e in input), smallest, input[i]) <==> HiddenAt(input, smallest, i)
    {
      var es := set e | e in input;
      if HiddenAt(input, smallest, i) {
        assert Precedes(less, input[i - 1], input[i]);
        assert input[i - 1] in es;
      }
      if p :| p in es && p.key == input[i].key && input[i].seqno < p.seqno <= smallest {
        var j :| 0 <= j < |input| && input[j] == p;
        assert j > i ==> Precedes(less, input[i], input[j]);
        assert j < i - 1 ==> Precedes(less, input[j], input[i - 1]);
        assert Precedes(less, input[i - 1], input[i]);
      }
    }

    // What the loop is to keep of the first n entries.
    ghost predicate KeepsOf(input: seq<Entry>, smallest: nat, n: nat, kept: seq<Entry>)
      requires |files| == NUM_LEVELS && n <= |input|
    {
      && Sorted(less, kept)
      && forall e :: e in kept <==> exists i :: 0 <= i < n && input[i] == e && !HiddenAt(input, smallest, i)
                                      && !(e.kind.Deletion? && e.seqno <= smallest && IsBase(e.key))
    }

    lemma KeepsOneMore(input: seq<Entry>, smallest: nat, n: nat, kept: seq<Entry>)
      requires |files| == NUM_LEVELS && n < |input| && TotalOrder(less) && Sorted(less, input)
      requires KeepsOf(input, smallest, n, kept)
      ensures var e := input[n];
              var dropped := HiddenAt(input, smallest, n) || (e.kind.Deletion? && e.seqno <= smallest && IsBase(e.key));
              KeepsOf(input, smallest, n + 1, if dropped then kept else kept + [e])
    {
      var e := input[n];
      forall i | 0 <= i < |kept|
        ensures Precedes(less, kept[i], e)
      {
        assert kept[i] in kept;
        var j :| 0 <= j < n && input[j] == kept[i];
      }
    }

    lemma NoneTwice(es: seq<Entry>)
      requires TotalOrder(less) && Sorted(less, es)
      ensures forall i, j :: 0 <= i < |es| && 0 <= j < |es| && es[i] == es[j] ==> i == j
    {
      forall i, j | 0 <= i < j < |es|
        ensures es[i] != es[j]
      {
        assert Precedes(less, es[i], es[j]);
      }
    }

    lemma KeepsAll(input: seq<Entry>, smallest: nat, kept: seq<Entry>)
      requires |files| == NUM_LEVELS && TotalOrder(less) && Sorted(less, input)
      requires KeepsOf(input, smallest, |input|, kept)
      ensures Sorted(less, kept)
      ensures (set e | e in kept) == Kept((set e | e in input), smallest, BaseKeys(input))
    {
      forall e: Entry
        ensures e in kept <==> e in Kept((set e | e in input), smallest, BaseKeys(input))
      {
        if e in input {
          var i :| 0 <= i < |input| && input[i] == e;
          HiddenIsHiddenAt(input, smallest, i);
          NoneTwice(input);
        }
      }
    }

    // The keys of the input with no file below the outputs.
    function BaseKeys(input: seq<Entry>): set<Key>
      requires |files| == NUM_LEVELS
    {
      set e | e in input && IsBase(e.key) :: e.key
    }

    // Where output files end is up to the file sizes and to what they overlap
    // further down; stopBefore and bigEnough stand for that.
    method DoCompactionWork(input: seq<Entry>, smallestSnapshot: nat, stopBefore: seq<bool>, bigEnough: seq<bool>)
      returns (outputs: seq<seq<Entry>>)
      requires Valid() && forall key :: NotPast(key)
      requires Sorted(less, input) && forall e :: e in input ==> e.seqno <= MAX_SEQUENCE
      requires |stopBefore| == |bigEnough| == |input|
      modifies this`levelPtrs
      ensures forall o :: o in outputs ==> o != []
      ensures smallestSnapshot < MAX_SEQUENCE ==> Sorted(less, Flat(outputs))
      ensures smallestSnapshot < MAX_SEQUENCE ==>
        (set e | e in Flat(outputs)) == Kept((set e | e in input), smallestSnapshot, BaseKeys(input))
      // At the very last sequence number the mark for a new key is taken for a visible entry.
      ensures smallestSnapshot >= MAX_SEQUENCE ==> outputs == []
    {
      hide KeepsOf;
      hide Flat;
      hide NotPast;
      hide IsBase;
      hide TotalOrder;
      outputs := [];
      FlatOfNone();
      KeepsNothing(input, smallestSnapshot);
      var builder: seq<Entry> := [];
      var currentUserKey: Key := [];
      var hasCurrentUserKey := false;
      var lastSequenceForKey := MAX_SEQUENCE;
      var i := 0;
      while i < |input|
        invariant 0 <= i <= |input| && Valid()
        invariant i < |input| ==> NotPast(input[i].key)
        invariant hasCurrentUserKey == (i > 0)
        invariant i > 0 ==> currentUserKey == input[i - 1].key && lastSequenceForKey == input[i - 1].seqno
        invariant forall o :: o in outputs ==> o != []
        invariant smallestSnapshot < MAX_SEQUENCE ==> KeepsOf(input, smallestSnapshot, i, Flat(outputs) + builder)
        invariant smallestSnapshot >= MAX_SEQUENCE ==> outputs == [] && builder == []
      {
        var ikey := input[i];
        ghost var kept := Flat(outputs) + builder;
        if stopBefore[i] && builder != [] {
          FlatOneMore(outputs, builder);
          outputs := outputs + [builder];
          builder := [];
          NothingAppended(kept);
        }
        if !hasCurrentUserKey || ikey.key != currentUserKey {
          // A new user key: none of its entries has been met.
          currentUserKey := ikey.key;
          hasCurrentUserKey := true;
          lastSequenceForKey := MAX_SEQUENCE;
        }
        var drop := false;
        if lastSequenceForKey <= smallestSnapshot {
          drop := true; // (A)
        } else if ikey.kind.Deletion? && ikey.seqno <= smallestSnapshot {
          drop := IsBaseLevelForKey(ikey.key); // (B)
        }
        lastSequenceForKey := ikey.seqno;
        if smallestSnapshot < MAX_SEQUENCE {
          KeepsOneMore(input, smallestSnapshot, i, kept);
        }
        if !drop {
          Associate(Flat(outputs), builder, [ikey]);
          builder := builder + [ikey];
          if bigEnough[i] {
            FlatOneMore(outputs, builder);
            outputs := outputs + [builder];
            builder := [];
            NothingAppended(kept + [ikey]);
          }
        }
        if i + 1 < |input| {
          NotPastNext(ikey, input[i + 1]);
        }
        i := i + 1;
      }
      if builder != [] {
        FlatOneMore(outputs, builder);
        outputs := outputs + [builder];
      } else {
        NothingAppended(Flat(outputs));
      }
      if smallestSnapshot < MAX_SEQUENCE {
        KeepsAll(input, smallestSnapshot, Flat(outputs));
      }
    }

    lemma FlatOfNone()
      ensures Flat([]) + [] == []
    {
    }

    lemma KeepsNothing(input: seq<Entry>, smallest: nat)
      requires |files| == NUM_LEVELS
      ensures KeepsOf(input, smallest, 0, [])
    {
    }

    lemma NotPastNext(a: Entry, b: Entry)
      requires Valid() && NotPast(a.key) && Precedes(less, a, b)
      ensures NotPast(b.key)
    {
    }
  }
}
