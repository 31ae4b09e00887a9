// How the files of a level are listed anew after an edit.
module Builders {
  import opened Entries
  import opened Layouts
  import opened VersionSets

  // The files listed so far come before those still to come.
  ghost predicate ListedBefore(less: KeyOrder, after: seq<Table>, u: Table) {
    forall t :: t in after ==> Precedes(less, t.largest, u.smallest)
  }

  // What has been listed after i files of the base and n of the added ones.
  ghost predicate Listed(less: KeyOrder, files: seq<Table>, gone: seq<Table>, added: seq<Table>, i: nat, n: nat,
                         after: seq<Table>)
    requires i <= |files| && n <= |added|
  {
    && LevelOk(less, 1, after)
    && (forall t :: t in after <==> t in added[..n] || (t in files[..i] && t !in gone))
    && (forall u :: u in files[i..] && u !in gone ==> ListedBefore(less, after, u))
    && (forall u :: u in added[n..] ==> ListedBefore(less, after, u))
  }

  lemma LaterInRun(less: KeyOrder, files: seq<Table>, i: nat, u: Table)
    requires LevelOk(less, 1, files) && i < |files| && u in files[i + 1..]
    ensures Precedes(less, files[i].largest, u.smallest)
  {
    var j :| 0 <= j < |files[i + 1..]| && files[i + 1..][j] == u;
    assert files[i + 1 + j] == u;
  }

  // The next file of the base begins before the next added one, and so ends before it.
  lemma BaseFirst(less: KeyOrder, files: seq<Table>, gone: seq<Table>, added: seq<Table>, i: nat, n: nat, u: Table)
    requires AddsClear(less, files, gone, added) && i < |files| && files[i] !in gone && n <= |added| && u in added[n..]
    requires n < |added| ==> !Precedes(less, added[n].smallest, files[i].smallest)
    ensures Precedes(less, files[i].largest, u.smallest)
  {
    var j :| 0 <= j < |added[n..]| && added[n..][j] == u;
    var f, a := files[i], added[n];
    assert f in files && a in added && TableOk(less, a) && TableOk(less, f);
    SmallestTells(less, f, a);
    if j > 0 {
      LaterInRun(less, added, n, added[n + j]);
      EndsInOrder(less, a);
    }
  }

  lemma AddedFirst(less: KeyOrder, files: seq<Table>, gone: seq<Table>, added: seq<Table>, i: nat, n: nat, u: Table)
    requires AddsClear(less, files, gone, added) && n < |added| && i <= |files| && u in files[i..] && u !in gone
    requires i < |files| ==> Precedes(less, added[n].smallest, files[i].smallest)
    ensures Precedes(less, added[n].largest, u.smallest)
  {
    var j :| 0 <= j < |files[i..]| && files[i..][j] == u;
    var f, a := files[i], added[n];
    assert f in files && u in files && a in added && TableOk(less, a) && TableOk(less, f) && TableOk(less, u);
    if j > 0 {
      LaterInRun(less, files, i, u);
      EndsInOrder(less, f);
    }
    SmallestTells(less, a, u);
  }

  // MaybeAddFile: a file of the level goes behind the last one, which it must not overlap.
  method MaybeAddFile(less: KeyOrder, after: seq<Table>, f: Table, deleted: bool) returns (files: seq<Table>)
    requires LevelOk(less, 1, after) && TableOk(less, f) && (!deleted ==> ListedBefore(less, after, f))
    ensures LevelOk(less, 1, files) && files == if deleted then after else after + [f]
  {
    if deleted { return after; }
    if after != [] {
      assert Precedes(less, after[|after| - 1].largest, f.smallest);
    }
    files := after + [f];
    forall i, j | 0 <= i < j < |files|
      ensures Precedes(less, files[i].largest, files[j].smallest)
    {
      assert i < |after| ==> after[i] in after;
    }
  }

  lemma BaseListed(less: KeyOrder, files: seq<Table>, gone: seq<Table>, added: seq<Table>, i: nat, n: nat,
                   after: seq<Table>)
    requires AddsClear(less, files, gone, added) && i < |files| && n <= |added|
    requires Listed(less, files, gone, added, i, n, after)
    requires n < |added| ==> !Precedes(less, added[n].smallest, files[i].smallest)
    requires files[i] !in gone ==> LevelOk(less, 1, after + [files[i]])
    ensures Listed(less, files, gone, added, i + 1, n, if files[i] in gone then after else after + [files[i]])
  {
    hide LevelOk;
    hide AddsClear;
    assert files[..i + 1] == files[..i] + [files[i]] && files[i..] == [files[i]] + files[i + 1..];
    if files[i] !in gone {
      forall u | u in added[n..]
        ensures Precedes(less, files[i].largest, u.smallest)
      {
        BaseFirst(less, files, gone, added, i, n, u);
      }
      forall u | u in files[i + 1..]
        ensures Precedes(less, files[i].largest, u.smallest)
      {
        AddsInOrder(less, files, gone, added);
        LaterInRun(less, files, i, u);
      }
    }
  }

  lemma AddedListed(less: KeyOrder, files: seq<Table>, gone: seq<Table>, added: seq<Table>, i: nat, n: nat,
                    after: seq<Table>)
    requires AddsClear(less, files, gone, added) && i <= |files| && n < |added|
    requires Listed(less, files, gone, added, i, n, after)
    requires i < |files| ==> Precedes(less, added[n].smallest, files[i].smallest)
    requires LevelOk(less, 1, after + [added[n]])
    ensures Listed(less, files, gone, added, i, n + 1, after + [added[n]])
  {
    hide LevelOk;
    hide AddsClear;
    assert added[..n + 1] == added[..n] + [added[n]] && added[n..] == [added[n]] + added[n + 1..];
    forall u | u in files[i..] && u !in gone
      ensures Precedes(less, added[n].largest, u.smallest)
    {
      AddedFirst(less, files, gone, added, i, n, u);
    }
    forall u | u in added[n + 1..]
      ensures Precedes(less, added[n].largest, u.smallest) && ListedBefore(less, after, u)
    {
      assert u in added[n..];
      AddsInOrder(less, files, gone, added);
      LaterInRun(less, added, n, u);
    }
  }

  lemma AddsInOrder(less: KeyOrder, files: seq<Table>, gone: seq<Table>, added: seq<Table>)
    requires AddsClear(less, files, gone, added)
    ensures TotalOrder(less) && LevelOk(less, 1, files) && LevelOk(less, 1, added)
    ensures forall t :: t in files || t in added ==> TableOk(less, t)
  {
  }

  lemma AllListed(less: KeyOrder, files: seq<Table>, gone: seq<Table>, added: seq<Table>, after: seq<Table>)
    requires Listed(less, files, gone, added, |files|, |added|, after)
    ensures LevelOk(less, 1, after) && Edited(less, 1, files, gone, added, after)
  {
    assert files[..|files|] == files && added[..|added|] == added;
    RunInOrder(less, after);
  }

  // SaveTo, for a level from 1 on: the base files that stay and the added ones, merged
  // by their smallest keys. No file listed overlaps the one before it.
  method SaveTo(less: KeyOrder, files: seq<Table>, gone: seq<Table>, added: seq<Table>) returns (after: seq<Table>)
    requires AddsClear(less, files, gone, added)
    ensures LevelOk(less, 1, after) && Edited(less, 1, files, gone, added, after)
  {
    AddsInOrder(less, files, gone, added);
    hide LevelOk;
    hide AddsClear;
    hide TableOk;
    hide TotalOrder;
    var i := 0;
    after := [];
    assert Listed(less, files, gone, added, 0, 0, []) by { assert LevelOk(less, 1, []) by { NothingInOrder(less); } }
    for n := 0 to |added|
      invariant i <= |files| && Listed(less, files, gone, added, i, n, after)
    {
      while i < |files| && !Precedes(less, added[n].smallest, files[i].smallest)
        invariant i <= |files| && Listed(less, files, gone, added, i, n, after)
      {
        ghost var before := after;
        after := MaybeAddFile(less, after, files[i], files[i] in gone);
        BaseListed(less, files, gone, added, i, n, before);
        i := i + 1;
      }
      ghost var before := after;
      after := MaybeAddFile(less, after, added[n], false);
      AddedListed(less, files, gone, added, i, n, before);
    }
    while i < |files|
      invariant i <= |files| && Listed(less, files, gone, added, i, |added|, after)
    {
      ghost var before := after;
      after := MaybeAddFile(less, after, files[i], files[i] in gone);
      BaseListed(less, files, gone, added, i, |added|, before);
      i := i + 1;
    }
    AllListed(less, files, gone, added, after);
  }

  lemma NothingInOrder(less: KeyOrder)
    requires TotalOrder(less)
    ensures LevelOk(less, 1, [])
  {
  }
}
