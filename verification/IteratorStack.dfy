// The user-level iterator on top of the merging one: over the sorted listing of all
// sources, the merging iterator only makes moves the internal iterator may make.
module IteratorStack {
  import opened Basics
  import opened DBIter
  import opened Entries
  import Mergers

  // All entries of the sources in order.
  ghost predicate Lists(less: KeyOrder, sources: seq<seq<Entry>>, entries: seq<Entry>) {
    Sorted(less, entries) && (set e | e in entries) == Mergers.AllOf(sources)
  }

  // Both stand at the same entry of the same collection, or at none.
  ghost predicate InStep(m: Mergers.MergingIterator, it: InternalIterator)
    reads m, it
  {
    && m.Valid() && it.Ok() && it.less == m.less && it.stable == m.stable
    && Lists(m.less, m.sources, it.entries) && m.Stands() == Mergers.Place(it.entries, it.pos)
  }

  lemma FirstIsListed(less: KeyOrder, es: seq<Entry>, y: Option<Entry>)
    requires TotalOrder(less) && Sorted(less, es) && Mergers.LandsOnLeast(less, (set e | e in es), y, None)
    ensures y == Mergers.Place(es, 0)
  {
    var all := set e | e in es;
    assert forall i :: 0 <= i < |es| ==> es[i] in all;
    if y.None? {
      assert forall z :: z in all ==> !Mergers.Counts(None, z);
      assert all == {};
    } else {
      var j :| 0 <= j < |es| && es[j] == y.value;
      if j > 0 { Mergers.NotBoth(less, es[0], es[j]); }
    }
  }

  lemma LastIsListed(less: KeyOrder, es: seq<Entry>, y: Option<Entry>)
    requires TotalOrder(less) && Sorted(less, es) && Mergers.LandsOnGreatest(less, (set e | e in es), y, None)
    ensures y == Mergers.Place(es, |es| - 1)
  {
    var n := |es| - 1;
    var all := set e | e in es;
    assert forall i :: 0 <= i < |es| ==> es[i] in all;
    if y.None? {
      assert forall z :: z in all ==> !Mergers.Counts(None, z);
      assert all == {};
    } else {
      var j :| 0 <= j < |es| && es[j] == y.value;
      if j < n { Mergers.NotBoth(less, es[j], es[n]); }
    }
  }

  // Wherever the step lands, only newer entries lie in between.
  lemma NextIsAllowed(less: KeyOrder, es: seq<Entry>, stable: nat, i: nat, y: Option<Entry>) returns (p: int)
    requires TotalOrder(less) && Sorted(less, es) && i < |es|
    requires Mergers.LandsOnLeast(less, Mergers.After(less, (set e | e in es), es[i]), y, Some(stable))
    ensures i < p <= |es| && y == Mergers.Place(es, p)
    ensures forall j :: i < j < p ==> es[j].seqno > stable
  {
    var later := Mergers.After(less, (set e | e in es), es[i]);
    if y.None? {
      p := |es|;
    } else {
      p :| 0 <= p < |es| && es[p] == y.value;
      if p == i { Mergers.NotSelf(less, es[i]); }
      if p < i { Mergers.NotBoth(less, es[p], es[i]); }
    }
    forall j | i < j < p
      ensures es[j].seqno > stable
    {
      assert es[j] in later;
      if y.Some? { Mergers.NotBoth(less, es[j], es[p]); }
    }
  }

  lemma PrevIsAllowed(less: KeyOrder, es: seq<Entry>, stable: nat, i: nat, y: Option<Entry>) returns (p: int)
    requires TotalOrder(less) && Sorted(less, es) && i < |es|
    requires Mergers.LandsOnGreatest(less, Mergers.UpTo(less, (set e | e in es), es[i]), y, Some(stable))
    ensures -1 <= p < i && y == Mergers.Place(es, p)
    ensures forall j :: p < j < i ==> es[j].seqno > stable
  {
    var earlier := Mergers.UpTo(less, (set e | e in es), es[i]);
    if y.None? {
      p := -1;
    } else {
      p :| 0 <= p < |es| && es[p] == y.value;
      if p == i { Mergers.NotSelf(less, es[i]); }
      if i < p { Mergers.NotBoth(less, es[i], es[p]); }
    }
    forall j | p < j < i
      ensures es[j].seqno > stable
    {
      assert es[j] in earlier;
      if y.Some? { Mergers.NotBoth(less, es[p], es[j]); }
    }
  }

  // What the merging iterator shows of a move is what the internal one's contract
  // says: each of these methods has the postcondition of the method it is named for.
  method SeekToFirst(m: Mergers.MergingIterator, it: InternalIterator)
    requires InStep(m, it)
    modifies m`pos, m`current, m`forward, it`pos
    ensures InStep(m, it) && it.pos == 0
  {
    hide Mergers.MergingIterator.Valid;
    hide Sorted;
    m.SourcesAreMergeable();
    m.SeekToFirst();
    FirstIsListed(m.less, it.entries, m.Stands());
    it.pos := 0;
  }

  method SeekToLast(m: Mergers.MergingIterator, it: InternalIterator)
    requires InStep(m, it)
    modifies m`pos, m`current, m`forward, it`pos
    ensures InStep(m, it) && it.pos == |it.entries| - 1
  {
    hide Mergers.MergingIterator.Valid;
    hide Sorted;
    m.SourcesAreMergeable();
    m.SeekToLast();
    LastIsListed(m.less, it.entries, m.Stands());
    it.pos := |it.entries| - 1;
  }

  method Seek(m: Mergers.MergingIterator, it: InternalIterator, key: Key, seqno: nat)
    requires InStep(m, it)
    modifies m`pos, m`current, m`forward, it`pos
    ensures InStep(m, it) && 0 <= it.pos <= |it.entries|
    ensures forall i :: 0 <= i < it.pos ==> Precedes(it.less, it.entries[i], Entry(key, seqno, Put, []))
    ensures forall i :: it.pos <= i < |it.entries| ==> !Precedes(it.less, it.entries[i], Entry(key, seqno, Put, []))
  {
    hide Mergers.MergingIterator.Valid;
    m.SourcesAreMergeable();
    var target := Entry(key, seqno, Put, []);
    m.Seek(target);
    Mergers.SeekIsLowerBound(m.less, it.entries, target, m.Stands());
    it.Seek(key, seqno);
    SamePlace(m.less, it.entries, target, it.pos);
  }

  lemma SamePlace(less: KeyOrder, es: seq<Entry>, target: Entry, p: nat)
    requires p <= |es| && (forall i :: 0 <= i < p ==> Precedes(less, es[i], target))
    requires forall i :: p <= i < |es| ==> !Precedes(less, es[i], target)
    ensures p == Mergers.LowerBound(less, es, target)
  {
    var q := Mergers.LowerBound(less, es, target);
    assert q < |es| ==> !Precedes(less, es[q], target);
    assert p < |es| ==> !Precedes(less, es[p], target);
  }

  method Next(m: Mergers.MergingIterator, it: InternalIterator)
    requires InStep(m, it) && it.Valid()
    modifies m`pos, m`current, m`forward, it`pos
    ensures InStep(m, it) && old(it.pos) < it.pos <= |it.entries| && it.MayPass(old(it.pos) + 1, it.pos)
  {
    hide Mergers.MergingIterator.Valid;
    hide Sorted;
    hide TotalOrder;
    hide Mergers.AllOf;
    hide Mergers.Mergeable;
    hide Mergers.LandsOnLeast;
    hide Mergers.LandsOnGreatest;
    hide Mergers.After;
    hide Mergers.UpTo;
    m.SourcesAreMergeable();
    m.ValidStands();
    m.Next();
    ghost var q := NextIsAllowed(m.less, it.entries, it.stable, it.pos, m.Stands());
    assert it.MayPass(it.pos + 1, q);
    var p: int :| it.pos < p <= |it.entries| && it.MayPass(it.pos + 1, p) && m.Stands() == Mergers.Place(it.entries, p);
    it.pos := p;
  }

  method Prev(m: Mergers.MergingIterator, it: InternalIterator)
    requires InStep(m, it) && it.Valid()
    modifies m`pos, m`current, m`forward, it`pos
    ensures InStep(m, it) && -1 <= it.pos < old(it.pos) && it.MayPass(it.pos + 1, old(it.pos))
  {
    hide Mergers.MergingIterator.Valid;
    hide Sorted;
    hide TotalOrder;
    hide Mergers.AllOf;
    hide Mergers.Mergeable;
    hide Mergers.LandsOnLeast;
    hide Mergers.LandsOnGreatest;
    hide Mergers.After;
    hide Mergers.UpTo;
    m.SourcesAreMergeable();
    m.ValidStands();
    m.Prev();
    ghost var q := PrevIsAllowed(m.less, it.entries, it.stable, it.pos, m.Stands());
    assert it.MayPass(q + 1, it.pos);
    var p: int :| -1 <= p < it.pos && it.MayPass(p + 1, it.pos) && m.Stands() == Mergers.Place(it.entries, p);
    it.pos := p;
  }

  lemma StillListed(sources: seq<seq<Entry>>, grown: seq<seq<Entry>>, stable: nat)
    requires |grown| == |sources|
    requires forall i, e :: 0 <= i < |sources| && e in sources[i] ==> e in grown[i]
    requires forall i, e :: 0 <= i < |sources| && e in grown[i] && e !in sources[i] ==> e.seqno > stable
    ensures forall e :: e in Mergers.AllOf(sources) ==> e in Mergers.AllOf(grown)
    ensures forall e :: e in Mergers.AllOf(grown) && e.seqno <= stable ==> e in Mergers.AllOf(sources)
  {
    forall e | e in Mergers.AllOf(sources)
      ensures e in Mergers.AllOf(grown)
    {
      var i, j := Mergers.PlaceOf(sources, e);
      assert e in grown[i] && grown[i] in grown;
    }
    forall e | e in Mergers.AllOf(grown) && e.seqno <= stable
      ensures e in Mergers.AllOf(sources)
    {
      var i, j := Mergers.PlaceOf(grown, e);
      assert e in sources[i] && sources[i] in sources;
    }
  }

  // Writers at work: what grows under the merging iterator is a change the internal
  // one allows for, whatever the snapshot at or below the stable number.
  method Grow(m: Mergers.MergingIterator, it: InternalIterator, grown: seq<seq<Entry>>, at: seq<int>,
              entries: seq<Entry>, p: int)
    requires InStep(m, it) && Mergers.Apart(grown) && |grown| == |m.sources| == |m.pos| == |at|
    requires forall i :: 0 <= i < |at| ==> Mergers.Grows(m.less, m.sources[i], m.pos[i], grown[i], at[i], m.stable)
    requires Lists(m.less, grown, entries) && IsAt(it.entries, it.Valid(), it.pos, entries, p)
    modifies m`sources, m`pos, it
    ensures InStep(m, it) && m.sources == grown && it.entries == entries && it.pos == p
    ensures forall e: Entry :: e.seqno <= it.stable ==> (e in old(it.entries) <==> e in it.entries)
  {
    hide Mergers.MergingIterator.Valid;
    hide Mergers.Apart;
    hide Sorted;
    StillListed(m.sources, grown, m.stable);
    forall e: Entry | e.seqno <= it.stable
      ensures e in it.entries <==> e in entries
    {
      assert e in it.entries <==> e in Mergers.AllOf(m.sources);
      assert e in entries <==> e in Mergers.AllOf(grown);
    }
    m.Grow(grown, at);
    it.Interfere(it.stable, entries, p);
  }
}
