// What a compaction does to reads when its inputs are not cut cleanly. The
// picking of inputs compares user keys with the other level only, so a file in
// which the last user key of an input goes on can stay behind in its level.
module CutBoundaries {
  import opened Basics
  import opened Compaction
  import opened Entries
  import opened Store

  // The read of one entry.
  function Outcome(e: Entry): Option<Value> {
    if e.kind.Put? then Some(e.value) else None
  }

  // Inputs of two neighbouring layers and any part of them as outputs. A move is
  // the compaction of one file into itself.
  ghost predicate Installable(layers: seq<set<Entry>>, w: Work, outputs: set<Entry>) {
    && NewerAbove(layers) && Distinct(Union(layers)) && w.level + 1 < |layers|
    && w.upper <= layers[w.level] && w.lower <= layers[w.level + 1] && outputs <= w.upper + w.lower
  }

  ghost function Rest(layers: seq<set<Entry>>, w: Work): set<Entry>
    requires w.level < |layers|
  {
    layers[w.level] - w.upper
  }

  // All entries there are after the installation.
  ghost function Merged(layers: seq<set<Entry>>, w: Work, outputs: set<Entry>): set<Entry> {
    Union(layers) - (w.upper + w.lower) + outputs
  }

  // A reader is after an entry of the upper inputs, but finds older ones of its
  // key in what is left of their level.
  ghost predicate LeftBehind(layers: seq<set<Entry>>, w: Work, k: Key, n: nat)
    requires w.level < |layers|
  {
    Has(Rest(layers, w), k, n) && exists e :: e in w.upper && Finds(Union(layers), k, n, e)
  }

  lemma InstallKeepsDistinct(layers: seq<set<Entry>>, w: Work, outputs: set<Entry>)
    requires Installable(layers, w, outputs)
    ensures w.upper + w.lower <= Union(layers) && Merged(layers, w, outputs) <= Union(layers)
    ensures Rest(layers, w) <= Union(layers)
  {
    forall e | e in w.upper + w.lower
      ensures e in Union(layers)
    {
      InUnion(layers, if e in w.upper then w.level else w.level + 1, e);
    }
    forall e | e in Rest(layers, w)
      ensures e in Union(layers)
    {
      InUnion(layers, w.level, e);
    }
  }

  // ----- Where a read ends -----

  lemma {:induction false} FirstHit(layers: seq<set<Entry>>, m: nat, k: Key, n: nat)
    requires m <= |layers| && forall j :: 0 <= j < m ==> !Has(layers[j], k, n)
    requires m < |layers| ==> Has(layers[m], k, n)
    ensures Get(layers, k, n) == if m < |layers| then Lookup(layers[m], k, n) else None
  {
    if m > 0 {
      assert forall j :: 0 <= j < m - 1 ==> layers[1..][j] == layers[j + 1];
      FirstHit(layers[1..], m - 1, k, n);
    }
  }

  lemma HitIs(es: set<Entry>, all: set<Entry>, k: Key, n: nat, e: Entry)
    requires es <= all && Distinct(all) && e in es && Finds(all, k, n, e)
    ensures Has(es, k, n) && Lookup(es, k, n) == Lookup(all, k, n) == Outcome(e)
  {
    assert Finds(es, k, n, e);
    LookupFound(es, k, n, e);
    LookupFound(all, k, n, e);
  }

  // The first layer that has the key at all has the newest entry of it.
  lemma NothingNewerAbove(layers: seq<set<Entry>>, k: Key, n: nat, e: Entry, a: nat, j: nat)
    requires NewerAbove(layers) && j < a < |layers| && e in layers[a] && Finds(Union(layers), k, n, e)
    ensures !Has(layers[j], k, n)
  {
    if g :| g in layers[j] && g.key == k && g.seqno <= n {
      InUnion(layers, j, g);
    }
  }

  // Something is left of the level, and the newest entry is not among the inputs.
  lemma TopIsLeft(layers: seq<set<Entry>>, w: Work, k: Key, n: nat, g: Entry, top: Entry)
    requires NewerAbove(layers) && w.level + 1 < |layers| && w.lower <= layers[w.level + 1]
    requires g in Rest(layers, w) && g.key == k && g.seqno <= n && Finds(Union(layers), k, n, top)
    requires !LeftBehind(layers, w, k, n)
    ensures top !in w.upper + w.lower
  {
    InUnion(layers, w.level, g);
  }

  // Unless a reader finds older entries left behind, the newest entry after the
  // installation has nothing above it.
  lemma FirstAfterwards(layers: seq<set<Entry>>, w: Work, outputs: set<Entry>, k: Key, n: nat, e: Entry, a: nat,
                        j: nat, g: Entry)
    requires Installable(layers, w, outputs) && !LeftBehind(layers, w, k, n)
    requires j < a < |layers| && e in Installed(layers, w, outputs)[a] && Finds(Merged(layers, w, outputs), k, n, e)
    requires g in Installed(layers, w, outputs)[j]
    ensures !(g.key == k && g.seqno <= n)
  {
    if g.key == k && g.seqno <= n {
      InstallKeepsDistinct(layers, w, outputs);
      UnionOfInstalled(layers, w, outputs);
      InUnion(Installed(layers, w, outputs), j, g);
      var from := if e in w.upper then w.level else a;
      var over := if g in w.upper then w.level else j;
      assert e in layers[from] && g in layers[over];
      assert over == from == w.level && e in w.upper && g in Rest(layers, w);
      InUnion(layers, over, g);
      var top := NewestExists(Union(layers), k, n, g);
      TopIsLeft(layers, w, k, n, g, top);
      assert false;
    }
  }

  lemma ReadsLeftBehind(layers: seq<set<Entry>>, w: Work, outputs: set<Entry>, k: Key, n: nat)
    requires Installable(layers, w, outputs) && LeftBehind(layers, w, k, n)
    ensures Get(Installed(layers, w, outputs), k, n) == Lookup(Rest(layers, w), k, n)
  {
    hide Lookup;
    hide Get;
    var e :| e in w.upper && Finds(Union(layers), k, n, e);
    forall j | 0 <= j < w.level
      ensures !Has(layers[j], k, n)
    {
      NothingNewerAbove(layers, k, n, e, w.level, j);
    }
    hide Union;
    hide NewerAbove;
    FirstHit(Installed(layers, w, outputs), w.level, k, n);
  }

  lemma ReadsMerged(layers: seq<set<Entry>>, w: Work, outputs: set<Entry>, k: Key, n: nat, e: Entry)
    requires Installable(layers, w, outputs) && !LeftBehind(layers, w, k, n)
    requires Finds(Merged(layers, w, outputs), k, n, e)
    ensures Get(Installed(layers, w, outputs), k, n) == Lookup(Merged(layers, w, outputs), k, n)
  {
    hide Lookup;
    hide Get;
    var after, merged := Installed(layers, w, outputs), Merged(layers, w, outputs);
    InstallKeepsDistinct(layers, w, outputs);
    UnionOfInstalled(layers, w, outputs);
    var a :| 0 <= a < |after| && e in after[a];
    forall j | 0 <= j < a
      ensures !Has(after[j], k, n)
    {
      forall g: Entry | g in after[j]
        ensures !(g.key == k && g.seqno <= n)
      {
        FirstAfterwards(layers, w, outputs, k, n, e, a, j, g);
      }
    }
    assert after[a] <= merged;
    hide Union;
    hide NewerAbove;
    hide Installed;
    hide Merged;
    HitIs(after[a], merged, k, n, e);
    FirstHit(after, a, k, n);
  }

  lemma ReadsNothing(layers: seq<set<Entry>>, k: Key, n: nat)
    requires !Has(Union(layers), k, n)
    ensures Get(layers, k, n) == None == Lookup(Union(layers), k, n)
  {
    forall j, g | 0 <= j < |layers| && g in layers[j]
      ensures g in Union(layers)
    {
      InUnion(layers, j, g);
    }
    hide Union;
    FirstHit(layers, |layers|, k, n);
  }

  // What any read returns after the outputs are installed.
  lemma InstallReads(layers: seq<set<Entry>>, w: Work, outputs: set<Entry>, k: Key, n: nat)
    requires Installable(layers, w, outputs)
    ensures Get(Installed(layers, w, outputs), k, n)
         == if LeftBehind(layers, w, k, n) then Lookup(Rest(layers, w), k, n)
            else Lookup(Merged(layers, w, outputs), k, n)
  {
    hide Lookup;
    hide Get;
    var merged := Merged(layers, w, outputs);
    if LeftBehind(layers, w, k, n) {
      ReadsLeftBehind(layers, w, outputs, k, n);
    } else if f :| f in merged && f.key == k && f.seqno <= n {
      var e := NewestExists(merged, k, n, f);
      ReadsMerged(layers, w, outputs, k, n, e);
    } else {
      UnionOfInstalled(layers, w, outputs);
      ReadsNothing(Installed(layers, w, outputs), k, n);
    }
  }

  // ----- Who can tell -----

  // Whatever is left behind just below an upper input that a reader at or above
  // least sees says the same as that input does.
  ghost predicate NothingStaleLeft(layers: seq<set<Entry>>, w: Work, least: nat)
    requires w.level < |layers|
  {
    forall e, o :: e in w.upper && !Hidden(Union(layers), least, e) && Finds(Rest(layers, w), e.key, e.seqno, o)
      ==> Outcome(o) == Outcome(e)
  }

  // No reader at or above least can tell that the outputs were installed.
  ghost predicate Unseen(layers: seq<set<Entry>>, w: Work, outputs: set<Entry>, least: nat)
    requires w.level + 1 < |layers|
  {
    forall k: Key, n: nat :: n >= least ==> Get(Installed(layers, w, outputs), k, n) == Get(layers, k, n)
  }

  // The newest entry of a key and the newest of those set apart.
  lemma NextBelow(all: set<Entry>, rest: set<Entry>, least: nat, k: Key, n: nat, e: Entry) returns (o: Entry)
    requires rest <= all && Distinct(all) && Finds(all, k, n, e) && Has(rest, k, n) && n >= least
    ensures Finds(rest, e.key, e.seqno, o) && !Hidden(all, least, e)
    ensures Lookup(all, k, n) == Outcome(e) && Lookup(rest, k, n) == Outcome(o)
  {
    var f :| f in rest && f.key == k && f.seqno <= n;
    o := NewestExists(rest, k, n, f);
    LookupFound(rest, k, n, o);
    LookupFound(all, k, n, e);
  }

  lemma LeftBehindReads(layers: seq<set<Entry>>, w: Work, outputs: set<Entry>, least: nat, k: Key, n: nat)
    requires Installable(layers, w, outputs) && LeftBehind(layers, w, k, n) && NothingStaleLeft(layers, w, least)
    requires n >= least
    ensures Lookup(Rest(layers, w), k, n) == Get(layers, k, n)
  {
    InstallKeepsDistinct(layers, w, outputs);
    GetIsLookup(layers, k, n);
    var e :| e in w.upper && Finds(Union(layers), k, n, e);
    var o := NextBelow(Union(layers), Rest(layers, w), least, k, n, e);
  }

  function Reader(e: Entry, least: nat): nat {
    if e.seqno > least then e.seqno else least
  }

  // The reader at the entry, or at least, sees it before and what is left after.
  lemma SeesBoth(all: set<Entry>, rest: set<Entry>, least: nat, e: Entry, o: Entry)
    requires rest <= all && Distinct(all) && e in all && !Hidden(all, least, e) && Finds(rest, e.key, e.seqno, o)
    ensures var n := Reader(e, least);
      Finds(all, e.key, n, e) && Has(rest, e.key, n) && Lookup(all, e.key, n) == Outcome(e)
      && Lookup(rest, e.key, n) == Outcome(o)
  {
    var n := Reader(e, least);
    assert Finds(rest, e.key, n, o);
    LookupFound(rest, e.key, n, o);
    LookupFound(all, e.key, n, e);
  }

  lemma StaleIsSeen(layers: seq<set<Entry>>, w: Work, outputs: set<Entry>, least: nat, e: Entry, o: Entry)
    requires Installable(layers, w, outputs) && e in w.upper && !Hidden(Union(layers), least, e)
    requires Finds(Rest(layers, w), e.key, e.seqno, o)
    ensures var n := Reader(e, least);
      Get(layers, e.key, n) == Outcome(e) && Get(Installed(layers, w, outputs), e.key, n) == Outcome(o)
  {
    InstallKeepsDistinct(layers, w, outputs);
    SeesBoth(Union(layers), Rest(layers, w), least, e, o);
    hide Lookup;
    hide Get;
    hide Has;
    hide Finds;
    GetIsLookup(layers, e.key, Reader(e, least));
    InstallReads(layers, w, outputs, e.key, Reader(e, least));
  }

  // A move goes unnoticed by every reader at or above least exactly when nothing
  // stale is left.
  lemma MoveIsUnseenIff(layers: seq<set<Entry>>, i: nat, file: set<Entry>, least: nat)
    requires Installable(layers, Move(i, file), file)
    ensures Unseen(layers, Move(i, file), file, least) <==> NothingStaleLeft(layers, Move(i, file), least)
  {
    var w := Move(i, file);
    hide Get;
    hide NewerAbove;
    if NothingStaleLeft(layers, w, least) {
      InstallKeepsDistinct(layers, w, file);
      assert Merged(layers, w, file) == Union(layers);
      forall k: Key, n: nat | n >= least
        ensures Get(Installed(layers, w, file), k, n) == Get(layers, k, n)
      {
        InstallReads(layers, w, file, k, n);
        GetIsLookup(layers, k, n);
        if LeftBehind(layers, w, k, n) { LeftBehindReads(layers, w, file, least, k, n); }
      }
    } else {
      var e, o :| e in w.upper && !Hidden(Union(layers), least, e) && Finds(Rest(layers, w), e.key, e.seqno, o)
                  && Outcome(o) != Outcome(e);
      StaleIsSeen(layers, w, file, least, e, o);
    }
  }

  // A put that a dropped deletion brings back is found, left behind or not.
  lemma DroppedDeletionIsSeen(layers: seq<set<Entry>>, w: Work, d: Entry, o: Entry)
    requires Installable(layers, w, Outputs(w))
    requires Resurrects(w.upper + w.lower, Union(layers) - (w.upper + w.lower), w.smallest, w.base, d, o)
    ensures Get(layers, d.key, w.smallest) == None
    ensures Get(Installed(layers, w, Outputs(w)), d.key, w.smallest) == Some(o.value)
  {
    var input, all := w.upper + w.lower, Union(layers);
    var others := all - input;
    InstallKeepsDistinct(layers, w, Outputs(w));
    assert input + others == all && Merged(layers, w, Outputs(w)) == Outputs(w) + others;
    UnsafeDropIsSeen(input, others, w.smallest, w.base, d, o);
    InstallReads(layers, w, Outputs(w), d.key, w.smallest);
    GetIsLookup(layers, d.key, w.smallest);
    if LeftBehind(layers, w, d.key, w.smallest) {
      assert Finds(all, d.key, w.smallest, d);
      OldPutIsLeft(layers, w, d, o);
      LookupFound(Rest(layers, w), d.key, w.smallest, o);
    }
  }

  // Of the layers it can only be the deletion's own that still has the put.
  lemma OldPutIsThere(layers: seq<set<Entry>>, level: nat, d: Entry, f: Entry, o: Entry, j: nat)
    requires NewerAbove(layers) && level < |layers| && j < |layers| && d in layers[level] && f in layers[level]
    requires o in layers[j]
    requires d.key == f.key == o.key && f.seqno <= o.seqno <= d.seqno
    ensures j == level
  {
  }

  lemma RestIsNoInput(layers: seq<set<Entry>>, w: Work)
    requires NewerAbove(layers) && w.level + 1 < |layers| && w.lower <= layers[w.level + 1]
    ensures Rest(layers, w) <= Union(layers) - (w.upper + w.lower)
  {
    forall e | e in Rest(layers, w)
      ensures e in Union(layers) && e !in w.lower
    {
      InUnion(layers, w.level, e);
      if e in w.lower { OneLayerEach(layers, w.level, w.level + 1, e); }
    }
  }

  lemma NextOfBoth(all: set<Entry>, input: set<Entry>, rest: set<Entry>, n: nat, d: Entry, f: Entry, o: Entry)
    requires Finds(all, d.key, n, d) && Finds(all - input, d.key, d.seqno, o) && o in rest && rest <= all - input
    ensures Finds(rest, d.key, n, o)
  {
  }

  lemma OldPutIsLeft(layers: seq<set<Entry>>, w: Work, d: Entry, o: Entry)
    requires Installable(layers, w, Outputs(w)) && LeftBehind(layers, w, d.key, w.smallest)
    requires d in w.upper + w.lower && Finds(Union(layers), d.key, w.smallest, d)
    requires Finds(Union(layers) - (w.upper + w.lower), d.key, d.seqno, o)
    ensures Finds(Rest(layers, w), d.key, w.smallest, o)
  {
    var all, rest, input := Union(layers), Rest(layers, w), w.upper + w.lower;
    assert rest <= layers[w.level] && Has(rest, d.key, w.smallest);
    hide *;
    RestIsNoInput(layers, w);
    DeletionFound(layers, w, d);
    var f := SomeLeft(all, input, rest, w.smallest, d, o);
    var j := LayerOf(layers, o);
    OldPutIsThere(layers, w.level, d, f, o, j);
    NextOfBoth(all, input, rest, w.smallest, d, f, o);
  }

  lemma LayerOf(layers: seq<set<Entry>>, e: Entry) returns (j: nat)
    requires e in Union(layers)
    ensures j < |layers| && e in layers[j]
  {
    j :| 0 <= j < |layers| && e in layers[j];
  }

  lemma SomeLeft(all: set<Entry>, input: set<Entry>, rest: set<Entry>, n: nat, d: Entry, o: Entry) returns (f: Entry)
    requires rest <= all - input && Has(rest, d.key, n)
    requires Finds(all, d.key, n, d) && Finds(all - input, d.key, d.seqno, o)
    ensures f in rest && f.key == d.key == o.key && f.seqno <= o.seqno <= d.seqno && o in all
  {
    f :| f in rest && f.key == d.key && f.seqno <= n;
  }

  lemma DeletionFound(layers: seq<set<Entry>>, w: Work, d: Entry)
    requires Distinct(Union(layers)) && w.level < |layers| && w.upper <= layers[w.level]
    requires LeftBehind(layers, w, d.key, w.smallest)
    requires Finds(Union(layers), d.key, w.smallest, d)
    ensures d in w.upper && d in layers[w.level]
  {
    var e :| e in w.upper && Finds(Union(layers), d.key, w.smallest, e);
    assert e == d;
  }

  lemma SafeIsUnseen(layers: seq<set<Entry>>, w: Work, k: Key, n: nat)
    requires Installable(layers, w, Outputs(w)) && NothingStaleLeft(layers, w, w.smallest) && n >= w.smallest
    requires DeletionsAreSafe(w.upper + w.lower, Union(layers) - (w.upper + w.lower), w.smallest, w.base)
    ensures Get(Installed(layers, w, Outputs(w)), k, n) == Get(layers, k, n)
  {
    var input, all, outputs := w.upper + w.lower, Union(layers), Outputs(w);
    InstallKeepsDistinct(layers, w, outputs);
    hide Get;
    hide Lookup;
    hide DeletionsAreSafe;
    hide Installed;
    hide NothingStaleLeft;
    InstallReads(layers, w, outputs, k, n);
    GetIsLookup(layers, k, n);
    if LeftBehind(layers, w, k, n) {
      LeftBehindReads(layers, w, outputs, w.smallest, k, n);
    } else {
      var others := all - input;
      hide LeftBehind;
      hide Union;
      hide NewerAbove;
      assert input + others == all && Merged(layers, w, outputs) == outputs + others;
      DropsAreUnseen(input, others, w.smallest, w.base, k, n);
    }
  }

  // The outputs of a compaction go unnoticed by every reader it has to reckon
  // with exactly when nothing stale is left and no dropped deletion is missed.
  lemma InstallIsUnseenIff(layers: seq<set<Entry>>, w: Work)
    requires Installable(layers, w, Outputs(w))
    ensures Unseen(layers, w, Outputs(w), w.smallest)
       <==> NothingStaleLeft(layers, w, w.smallest)
            && DeletionsAreSafe(w.upper + w.lower, Union(layers) - (w.upper + w.lower), w.smallest, w.base)
  {
    hide Get;
    hide NewerAbove;
    hide Union;
    hide Kept;
    hide Installed;
    if !NothingStaleLeft(layers, w, w.smallest) {
      var e, o :| e in w.upper && !Hidden(Union(layers), w.smallest, e) && Finds(Rest(layers, w), e.key, e.seqno, o)
                  && Outcome(o) != Outcome(e);
      StaleIsSeen(layers, w, Outputs(w), w.smallest, e, o);
    } else if !DeletionsAreSafe(w.upper + w.lower, Union(layers) - (w.upper + w.lower), w.smallest, w.base) {
      var d, o :| Resurrects(w.upper + w.lower, Union(layers) - (w.upper + w.lower), w.smallest, w.base, d, o);
      hide Resurrects;
      DroppedDeletionIsSeen(layers, w, d, o);
    } else {
      forall k: Key, n: nat | n >= w.smallest
        ensures Get(Installed(layers, w, Outputs(w)), k, n) == Get(layers, k, n)
      {
        SafeIsUnseen(layers, w, k, n);
      }
    }
  }
}
