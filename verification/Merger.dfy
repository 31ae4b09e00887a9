// The merging iterator: several sorted sources read as one, in both directions,
// while entries above a number may be added to them at any time.
module Mergers {
  import opened Basics
  import opened Entries

  // ----- One source -----

  // The first place whose entry does not come before x.
  function LowerBound(less: KeyOrder, s: seq<Entry>, x: Entry): (p: nat)
    ensures p <= |s| && (forall j :: 0 <= j < p ==> Precedes(less, s[j], x)) && (p < |s| ==> !Precedes(less, s[p], x))
  {
    if s == [] || !Precedes(less, s[0], x) then 0 else 1 + LowerBound(less, s[1..], x)
  }

  // Entries up to the bound, or all when there is none.
  predicate Counts(bound: Option<nat>, e: Entry) {
    bound.None? || e.seqno <= bound.value
  }

  // At p begins what comes after x, and what is before p comes before x, as far as
  // entries count on the two sides.
  ghost predicate Ahead(less: KeyOrder, s: seq<Entry>, p: int, x: Entry, lo: Option<nat>, hi: Option<nat>) {
    && 0 <= p <= |s|
    && (forall j :: 0 <= j < p && Counts(lo, s[j]) ==> Precedes(less, s[j], x))
    && (forall j :: p <= j < |s| && Counts(hi, s[j]) ==> Precedes(less, x, s[j]))
  }

  // No two sources hold entries with the same internal key.
  ghost predicate Apart(sources: seq<seq<Entry>>) {
    forall i, j, e, f :: 0 <= i < j < |sources| && e in sources[i] && f in sources[j]
      ==> e.key != f.key || e.seqno != f.seqno
  }

  ghost predicate Mergeable(less: KeyOrder, sources: seq<seq<Entry>>) {
    && TotalOrder(less) && Apart(sources)
    && forall i :: 0 <= i < |sources| ==> Sorted(less, sources[i])
  }

  function AllOf(sources: seq<seq<Entry>>): set<Entry> {
    set s, e | s in sources && e in s :: e
  }

  // ----- What the merged sequence is -----

  // No entry that counts comes before y, or after it.
  ghost predicate Least(less: KeyOrder, es: set<Entry>, y: Entry, bound: Option<nat>) {
    y in es && forall z :: z in es && Counts(bound, z) ==> z == y || Precedes(less, y, z)
  }

  ghost predicate Greatest(less: KeyOrder, es: set<Entry>, y: Entry, bound: Option<nat>) {
    y in es && forall z :: z in es && Counts(bound, z) ==> z == y || Precedes(less, z, y)
  }

  ghost function After(less: KeyOrder, es: set<Entry>, x: Entry): set<Entry> {
    set e | e in es && Precedes(less, x, e)
  }

  ghost function UpTo(less: KeyOrder, es: set<Entry>, x: Entry): set<Entry> {
    set e | e in es && Precedes(less, e, x)
  }

  ghost function From(less: KeyOrder, es: set<Entry>, x: Entry): set<Entry> {
    set e | e in es && !Precedes(less, e, x)
  }

  // Standing at y, or nowhere when nothing that counts is there to stand at.
  ghost predicate LandsOnLeast(less: KeyOrder, es: set<Entry>, y: Option<Entry>, bound: Option<nat>) {
    if y.None? then forall z :: z in es ==> !Counts(bound, z) else Least(less, es, y.value, bound)
  }

  ghost predicate LandsOnGreatest(less: KeyOrder, es: set<Entry>, y: Option<Entry>, bound: Option<nat>) {
    if y.None? then forall z :: z in es ==> !Counts(bound, z) else Greatest(less, es, y.value, bound)
  }

  // ----- A cut through all sources -----

  // One place in each source.
  ghost predicate Places(sources: seq<seq<Entry>>, q: seq<int>) {
    |q| == |sources| && forall i :: 0 <= i < |q| ==> 0 <= q[i] <= |sources[i]|
  }

  predicate Below(sources: seq<seq<Entry>>, q: seq<int>, i: int, j: int) {
    0 <= i < |sources| == |q| && 0 <= j < |sources[i]| && j < q[i]
  }

  predicate Above(sources: seq<seq<Entry>>, q: seq<int>, i: int, j: int) {
    0 <= i < |sources| == |q| && 0 <= j < |sources[i]| && q[i] <= j
  }

  // Of the entries that count, those below the cut come before those above.
  ghost predicate Cut(less: KeyOrder, sources: seq<seq<Entry>>, q: seq<int>, lo: Option<nat>, hi: Option<nat>) {
    && Places(sources, q)
    && forall i, j, k, l ::
      Below(sources, q, i, j) && Above(sources, q, k, l) && Counts(lo, sources[i][j]) && Counts(hi, sources[k][l])
      ==> Precedes(less, sources[i][j], sources[k][l])
  }

  ghost predicate IsUpper(sources: seq<seq<Entry>>, q: seq<int>, es: set<Entry>, lo: Option<nat>) {
    && (forall i, j :: Above(sources, q, i, j) ==> sources[i][j] in es)
    && (forall i, j :: Below(sources, q, i, j) && Counts(lo, sources[i][j]) ==> sources[i][j] !in es)
    && forall e :: e in es ==> e in AllOf(sources)
  }

  ghost predicate IsLower(sources: seq<seq<Entry>>, q: seq<int>, es: set<Entry>, hi: Option<nat>) {
    && (forall i, j :: Below(sources, q, i, j) ==> sources[i][j] in es)
    && (forall i, j :: Above(sources, q, i, j) && Counts(hi, sources[i][j]) ==> sources[i][j] !in es)
    && forall e :: e in es ==> e in AllOf(sources)
  }

  lemma PlaceOf(sources: seq<seq<Entry>>, e: Entry) returns (i: nat, j: nat)
    requires e in AllOf(sources)
    ensures i < |sources| && j < |sources[i]| && sources[i][j] == e
  {
    var s :| s in sources && e in s;
    i :| 0 <= i < |sources| && sources[i] == s;
    j :| 0 <= j < |s| && s[j] == e;
  }

  // Of the first n children, the one with the least entry, if any has one.
  ghost predicate SmallestOf(less: KeyOrder, sources: seq<seq<Entry>>, q: seq<int>, n: nat, c: Option<nat>)
    requires n <= |sources| == |q|
  {
    if c.None? then forall i :: 0 <= i < n ==> !(0 <= q[i] < |sources[i]|)
    else
      && c.value < n && 0 <= q[c.value] < |sources[c.value]|
      && forall i :: 0 <= i < n && i != c.value && 0 <= q[i] < |sources[i]|
           ==> Precedes(less, sources[c.value][q[c.value]], sources[i][q[i]])
  }

  ghost predicate LargestOf(less: KeyOrder, sources: seq<seq<Entry>>, q: seq<int>, n: nat, c: Option<nat>)
    requires n <= |sources| == |q|
  {
    if c.None? then forall i :: n <= i < |sources| ==> !(0 <= q[i] < |sources[i]|)
    else
      && n <= c.value < |sources| && 0 <= q[c.value] < |sources[c.value]|
      && forall i :: n <= i < |sources| && i != c.value && 0 <= q[i] < |sources[i]|
           ==> Precedes(less, sources[i][q[i]], sources[c.value][q[c.value]])
  }

  lemma OneMoreSmallest(less: KeyOrder, sources: seq<seq<Entry>>, q: seq<int>, n: nat, c: Option<nat>)
    requires Mergeable(less, sources) && n < |sources| == |q| && SmallestOf(less, sources, q, n, c)
    ensures var better := 0 <= q[n] < |sources[n]|
            && (c.None? || Precedes(less, sources[n][q[n]], sources[c.value][q[c.value]]));
      SmallestOf(less, sources, q, n + 1, if better then Some(n) else c)
  {
    if c.Some? && 0 <= q[n] < |sources[n]| { HeadsApart(less, sources, c.value, q[c.value], n, q[n]); }
  }

  lemma OneMoreLargest(less: KeyOrder, sources: seq<seq<Entry>>, q: seq<int>, n: nat, c: Option<nat>)
    requires Mergeable(less, sources) && n < |sources| == |q| && LargestOf(less, sources, q, n + 1, c)
    ensures var better := 0 <= q[n] < |sources[n]|
            && (c.None? || Precedes(less, sources[c.value][q[c.value]], sources[n][q[n]]));
      LargestOf(less, sources, q, n, if better then Some(n) else c)
  {
    if c.Some? && 0 <= q[n] < |sources[n]| { HeadsApart(less, sources, c.value, q[c.value], n, q[n]); }
  }

  lemma HeadsApart(less: KeyOrder, sources: seq<seq<Entry>>, c: nat, j: nat, i: nat, k: nat)
    requires Mergeable(less, sources) && c < |sources| && i < |sources| && c != i && j < |sources[c]|
    requires k < |sources[i]|
    ensures Precedes(less, sources[c][j], sources[i][k]) || Precedes(less, sources[i][k], sources[c][j])
  {
    assert sources[i][k] in sources[i] && sources[c][j] in sources[c];
    if !Precedes(less, sources[i][k], sources[c][j]) { Dichotomy(less, sources[c][j], sources[i][k]); }
  }

  lemma NoneAbove(less: KeyOrder, sources: seq<seq<Entry>>, q: seq<int>, es: set<Entry>, lo: Option<nat>)
    requires Places(sources, q) && IsUpper(sources, q, es, lo) && SmallestOf(less, sources, q, |sources|, None)
    ensures LandsOnLeast(less, es, None, lo)
  {
    forall e | e in es
      ensures !Counts(lo, e)
    {
      var i, j := PlaceOf(sources, e);
      assert Below(sources, q, i, j);
    }
  }

  lemma CutHasPlaces(less: KeyOrder, sources: seq<seq<Entry>>, q: seq<int>, lo: Option<nat>, hi: Option<nat>)
    requires Cut(less, sources, q, lo, hi)
    ensures Places(sources, q)
  {
  }

  lemma AllInRange(sources: seq<seq<Entry>>, q: seq<int>)
    requires Places(sources, q)
    ensures |q| == |sources| && forall i :: 0 <= i < |sources| ==> 0 <= q[i] <= |sources[i]|
  {
  }

  lemma Transitive(less: KeyOrder, a: Entry, b: Entry, c: Entry)
    requires TotalOrder(less) && Precedes(less, a, b) && Precedes(less, b, c)
    ensures Precedes(less, a, c)
  {
  }

  lemma HeadIsLeast(less: KeyOrder, sources: seq<seq<Entry>>, q: seq<int>, c: nat, i: nat, j: nat)
    requires Mergeable(less, sources) && Places(sources, q) && SmallestOf(less, sources, q, |sources|, Some(c))
    requires Above(sources, q, i, j) && !(i == c && j == q[c])
    ensures Precedes(less, sources[c][q[c]], sources[i][j])
  {
    if i != c && j > q[i] { Transitive(less, sources[c][q[c]], sources[i][q[i]], sources[i][j]); }
  }

  lemma LeastAbove(less: KeyOrder, sources: seq<seq<Entry>>, q: seq<int>, es: set<Entry>, c: nat, lo: Option<nat>)
    requires Mergeable(less, sources) && Cut(less, sources, q, lo, None) && IsUpper(sources, q, es, lo)
    requires SmallestOf(less, sources, q, |sources|, Some(c))
    ensures Least(less, es, sources[c][q[c]], lo)
    ensures forall i :: 0 <= i < |sources| && i != c ==> Ahead(less, sources[i], q[i], sources[c][q[c]], lo, None)
  {
    hide Mergeable;
    hide Precedes;
    var x := sources[c][q[c]];
    assert Above(sources, q, c, q[c]);
    forall z | z in es && Counts(lo, z)
      ensures z == x || Precedes(less, x, z)
    {
      var i, j := PlaceOf(sources, z);
      assert !Below(sources, q, i, j);
      if !(i == c && j == q[c]) { HeadIsLeast(less, sources, q, c, i, j); }
    }
    forall i | 0 <= i < |sources| && i != c
      ensures Ahead(less, sources[i], q[i], x, lo, None)
    {
      forall j | q[i] <= j < |sources[i]|
        ensures Precedes(less, x, sources[i][j])
      {
        HeadIsLeast(less, sources, q, c, i, j);
      }
      assert forall j :: 0 <= j < q[i] ==> Below(sources, q, i, j);
    }
  }

  // In reverse a child stands at the last entry before the cut.
  function Up(p: seq<int>): (q: seq<int>)
    ensures |q| == |p| && forall i :: 0 <= i < |p| ==> q[i] == p[i] + 1
  {
    seq(|p|, i requires 0 <= i < |p| => p[i] + 1)
  }

  lemma NoneBelow(less: KeyOrder, sources: seq<seq<Entry>>, p: seq<int>, es: set<Entry>, hi: Option<nat>)
    requires Places(sources, Up(p)) && IsLower(sources, Up(p), es, hi) && LargestOf(less, sources, p, 0, None)
    ensures LandsOnGreatest(less, es, None, hi)
  {
    forall e | e in es
      ensures !Counts(hi, e)
    {
      var i, j := PlaceOf(sources, e);
      assert Above(sources, Up(p), i, j);
    }
  }

  lemma HeadIsGreatest(less: KeyOrder, sources: seq<seq<Entry>>, p: seq<int>, c: nat, i: nat, j: nat)
    requires Mergeable(less, sources) && Places(sources, Up(p)) && LargestOf(less, sources, p, 0, Some(c))
    requires Below(sources, Up(p), i, j) && !(i == c && j == p[c])
    ensures Precedes(less, sources[i][j], sources[c][p[c]])
  {
    if i != c && j < p[i] { Transitive(less, sources[i][j], sources[i][p[i]], sources[c][p[c]]); }
  }

  lemma GreatestBelow(less: KeyOrder, sources: seq<seq<Entry>>, p: seq<int>, es: set<Entry>, c: nat, hi: Option<nat>)
    requires Mergeable(less, sources) && Cut(less, sources, Up(p), None, hi) && IsLower(sources, Up(p), es, hi)
    requires LargestOf(less, sources, p, 0, Some(c))
    ensures Greatest(less, es, sources[c][p[c]], hi)
    ensures forall i :: 0 <= i < |sources| && i != c ==> Ahead(less, sources[i], p[i] + 1, sources[c][p[c]], None, hi)
  {
    hide Mergeable;
    hide Precedes;
    var x, q := sources[c][p[c]], Up(p);
    assert Below(sources, q, c, p[c]);
    forall z | z in es && Counts(hi, z)
      ensures z == x || Precedes(less, z, x)
    {
      var i, j := PlaceOf(sources, z);
      assert !Above(sources, q, i, j);
      if !(i == c && j == p[c]) { HeadIsGreatest(less, sources, p, c, i, j); }
    }
    forall i | 0 <= i < |sources| && i != c
      ensures Ahead(less, sources[i], q[i], x, None, hi)
    {
      forall j | 0 <= j < q[i]
        ensures Precedes(less, sources[i][j], x)
      {
        HeadIsGreatest(less, sources, p, c, i, j);
      }
      assert forall j :: q[i] <= j < |sources[i]| ==> Above(sources, q, i, j);
    }
  }

  // A cut around an entry: what counts below comes before x, or is x if it may be,
  // and what counts above comes after x, or is x otherwise.
  ghost predicate Around(less: KeyOrder, sources: seq<seq<Entry>>, q: seq<int>, x: Entry, below: bool, lo: Option<nat>,
                         hi: Option<nat>) {
    && Places(sources, q)
    && (forall i, j :: Below(sources, q, i, j) && Counts(lo, sources[i][j])
          ==> Precedes(less, sources[i][j], x) || (below && sources[i][j] == x))
    && (forall i, j :: Above(sources, q, i, j) && Counts(hi, sources[i][j])
          ==> !Precedes(less, sources[i][j], x) && (below ==> Precedes(less, x, sources[i][j])))
  }

  lemma AroundIsCut(less: KeyOrder, sources: seq<seq<Entry>>, q: seq<int>, x: Entry, below: bool, lo: Option<nat>,
                    hi: Option<nat>)
    requires TotalOrder(less) && Around(less, sources, q, x, below, lo, hi)
    ensures Cut(less, sources, q, lo, hi)
  {
    forall i, j, k, l | Below(sources, q, i, j) && Above(sources, q, k, l) && Counts(lo, sources[i][j])
                        && Counts(hi, sources[k][l])
      ensures Precedes(less, sources[i][j], sources[k][l])
    {
      Between(less, sources[i][j], x, sources[k][l]);
    }
  }

  lemma Between(less: KeyOrder, a: Entry, x: Entry, b: Entry)
    requires TotalOrder(less)
    requires (Precedes(less, a, x) && !Precedes(less, b, x)) || (a == x && Precedes(less, x, b))
    ensures Precedes(less, a, b)
  {
  }

  lemma InAll(sources: seq<seq<Entry>>, i: nat, j: nat)
    requires i < |sources| && j < |sources[i]|
    ensures sources[i][j] in AllOf(sources)
  {
    assert sources[i] in sources && sources[i][j] in sources[i];
  }

  lemma UpperIsAfter(less: KeyOrder, sources: seq<seq<Entry>>, q: seq<int>, x: Entry, lo: Option<nat>)
    requires TotalOrder(less) && Around(less, sources, q, x, true, lo, None)
    ensures IsUpper(sources, q, After(less, AllOf(sources), x), lo)
  {
    forall i, j | Above(sources, q, i, j)
      ensures sources[i][j] in AllOf(sources)
    {
      InAll(sources, i, j);
    }
  }

  lemma UpperIsFrom(less: KeyOrder, sources: seq<seq<Entry>>, q: seq<int>, x: Entry)
    requires Around(less, sources, q, x, false, None, None)
    ensures IsUpper(sources, q, From(less, AllOf(sources), x), None)
  {
    forall i, j | Above(sources, q, i, j)
      ensures sources[i][j] in AllOf(sources)
    {
      InAll(sources, i, j);
    }
  }

  lemma LowerIsUpTo(less: KeyOrder, sources: seq<seq<Entry>>, q: seq<int>, x: Entry, hi: Option<nat>)
    requires Around(less, sources, q, x, false, None, hi)
    ensures IsLower(sources, q, UpTo(less, AllOf(sources), x), hi)
  {
    forall i, j | Below(sources, q, i, j)
      ensures sources[i][j] in AllOf(sources)
    {
      InAll(sources, i, j);
    }
  }

  // The cut right behind the current entry, and the one right before it.
  lemma AroundCurrent(less: KeyOrder, sources: seq<seq<Entry>>, q: seq<int>, c: nat, below: bool, lo: Option<nat>,
                      hi: Option<nat>)
    requires Mergeable(less, sources) && |q| == |sources| && c < |sources|
    requires var j := if below then q[c] - 1 else q[c];
      && 0 <= j < |sources[c]|
      && forall i :: 0 <= i < |sources| && i != c ==> Ahead(less, sources[i], q[i], sources[c][j], lo, hi)
    ensures Around(less, sources, q, sources[c][if below then q[c] - 1 else q[c]], below, lo, hi)
  {
    hide Mergeable;
    hide Precedes;
    hide Ahead;
    var j := if below then q[c] - 1 else q[c];
    var x := sources[c][j];
    AheadIsInRange(less, sources, q, c, x, lo, hi);
    forall i, k | Below(sources, q, i, k) && Counts(lo, sources[i][k])
      ensures Precedes(less, sources[i][k], x) || (below && sources[i][k] == x)
    {
      BelowCurrent(less, sources, i, k, c, j, q[i], lo, hi);
    }
    forall i, k | Above(sources, q, i, k) && Counts(hi, sources[i][k])
      ensures !Precedes(less, sources[i][k], x) && (below ==> Precedes(less, x, sources[i][k]))
    {
      AboveCurrent(less, sources, i, k, c, j, q[i], lo, hi);
    }
  }

  lemma AheadIsInRange(less: KeyOrder, sources: seq<seq<Entry>>, q: seq<int>, c: nat, x: Entry,
                       lo: Option<nat>, hi: Option<nat>)
    requires |q| == |sources|
    requires forall i :: 0 <= i < |sources| && i != c ==> Ahead(less, sources[i], q[i], x, lo, hi)
    ensures forall i :: 0 <= i < |sources| && i != c ==> 0 <= q[i] <= |sources[i]|
  {
  }

  lemma BelowCurrent(less: KeyOrder, sources: seq<seq<Entry>>, i: nat, k: nat, c: nat, j: nat, p: int,
                     lo: Option<nat>, hi: Option<nat>)
    requires Mergeable(less, sources) && i < |sources| && c < |sources| && k < |sources[i]| && j < |sources[c]|
    requires if i == c then k <= j else Ahead(less, sources[i], p, sources[c][j], lo, hi) && k < p
    requires Counts(lo, sources[i][k])
    ensures Precedes(less, sources[i][k], sources[c][j]) || (i == c && k == j)
  {
  }

  lemma AboveCurrent(less: KeyOrder, sources: seq<seq<Entry>>, i: nat, k: nat, c: nat, j: nat, p: int,
                     lo: Option<nat>, hi: Option<nat>)
    requires Mergeable(less, sources) && i < |sources| && c < |sources| && k < |sources[i]| && j < |sources[c]|
    requires if i == c then k >= j else Ahead(less, sources[i], p, sources[c][j], lo, hi) && k >= p
    requires Counts(hi, sources[i][k])
    ensures Precedes(less, sources[c][j], sources[i][k]) || (i == c && k == j)
    ensures !Precedes(less, sources[i][k], sources[c][j])
  {
    if i == c && k == j {
      NotSelf(less, sources[c][j]);
    } else {
      NotBoth(less, sources[c][j], sources[i][k]);
    }
  }

  lemma NotBoth(less: KeyOrder, x: Entry, y: Entry)
    requires TotalOrder(less) && Precedes(less, x, y)
    ensures !Precedes(less, y, x)
  {
  }

  lemma NotSelf(less: KeyOrder, x: Entry)
    requires TotalOrder(less)
    ensures !Precedes(less, x, x)
  {
  }

  // Where a child is put by a seek to an entry of another.
  lemma SeekApart(less: KeyOrder, sources: seq<seq<Entry>>, c: nat, j: nat, i: nat)
    requires Mergeable(less, sources) && c < |sources| && j < |sources[c]| && i < |sources| && i != c
    ensures Ahead(less, sources[i], LowerBound(less, sources[i], sources[c][j]), sources[c][j], None, None)
  {
    var x, s := sources[c][j], sources[i];
    var p := LowerBound(less, s, x);
    forall k | p <= k < |s|
      ensures Precedes(less, x, s[k])
    {
      assert s[k] in s && s[p] in s && x in sources[c];
      assert k > p ==> Precedes(less, s[p], s[k]);
      Dichotomy(less, x, s[p]);
    }
  }

  lemma Dichotomy(less: KeyOrder, x: Entry, y: Entry)
    requires TotalOrder(less) && (x.key != y.key || x.seqno != y.seqno) && !Precedes(less, y, x)
    ensures Precedes(less, x, y)
  {
  }

  lemma AroundTarget(less: KeyOrder, sources: seq<seq<Entry>>, q: seq<int>, target: Entry)
    requires Mergeable(less, sources) && |q| == |sources|
    requires forall i :: 0 <= i < |sources| ==> q[i] == LowerBound(less, sources[i], target)
    ensures Around(less, sources, q, target, false, None, None)
  {
    forall i, k | Above(sources, q, i, k)
      ensures !Precedes(less, sources[i][k], target)
    {
      assert k > q[i] ==> Precedes(less, sources[i][q[i]], sources[i][k]);
    }
  }

  lemma EverythingAbove(less: KeyOrder, sources: seq<seq<Entry>>, q: seq<int>)
    requires |q| == |sources| && forall i :: 0 <= i < |q| ==> q[i] == 0
    ensures Cut(less, sources, q, None, None) && IsUpper(sources, q, AllOf(sources), None)
  {
    forall i, j | Above(sources, q, i, j)
      ensures sources[i][j] in AllOf(sources)
    {
      InAll(sources, i, j);
    }
  }

  lemma EverythingBelow(less: KeyOrder, sources: seq<seq<Entry>>, q: seq<int>)
    requires |q| == |sources| && forall i :: 0 <= i < |q| ==> q[i] == |sources[i]|
    ensures Cut(less, sources, q, None, None) && IsLower(sources, q, AllOf(sources), None)
  {
    forall i, j | Below(sources, q, i, j)
      ensures sources[i][j] in AllOf(sources)
    {
      InAll(sources, i, j);
    }
  }

  // Where a child is put behind, and where before, the current entry of another.
  function SeekPast(less: KeyOrder, s: seq<Entry>, x: Entry): int {
    var p := LowerBound(less, s, x);
    if p < |s| && s[p].key == x.key && s[p].seqno == x.seqno then p + 1 else p
  }

  function SeekShort(less: KeyOrder, s: seq<Entry>, x: Entry): int {
    var p := LowerBound(less, s, x);
    if p < |s| then p - 1 else |s| - 1
  }

  lemma SeeksApart(less: KeyOrder, sources: seq<seq<Entry>>, c: nat, j: nat, i: nat)
    requires Mergeable(less, sources) && c < |sources| && j < |sources[c]| && i < |sources| && i != c
    ensures Ahead(less, sources[i], SeekPast(less, sources[i], sources[c][j]), sources[c][j], None, None)
    ensures Ahead(less, sources[i], SeekShort(less, sources[i], sources[c][j]) + 1, sources[c][j], None, None)
  {
    SeekApart(less, sources, c, j, i);
    var p := LowerBound(less, sources[i], sources[c][j]);
    assert p < |sources[i]| ==> sources[i][p] in sources[i];
    assert sources[c][j] in sources[c];
  }

  // Where a child that is not current stands: in the order of the direction just
  // past x, save for entries that came in behind it.
  ghost predicate StandsOff(less: KeyOrder, s: seq<Entry>, p: int, x: Entry, forward: bool, stable: nat) {
    if forward then Ahead(less, s, p, x, Some(stable), None) else Ahead(less, s, p + 1, x, None, Some(stable))
  }

  // Nothing is asked of entries above the bound.
  lemma AheadForAll(less: KeyOrder, s: seq<Entry>, p: int, x: Entry, lo: Option<nat>, hi: Option<nat>)
    requires Ahead(less, s, p, x, None, None)
    ensures Ahead(less, s, p, x, lo, hi)
  {
  }

  // One source, later: more entries above the bound, and the one stood at in its place.
  ghost predicate Grows(less: KeyOrder, s: seq<Entry>, p: int, s': seq<Entry>, p': int, stable: nat) {
    && Sorted(less, s') && (forall e :: e in s ==> e in s')
    && (forall e :: e in s' && e !in s ==> e.seqno > stable)
    && if 0 <= p < |s| then 0 <= p' < |s'| && s'[p'] == s[p] else p' == if p < 0 then -1 else |s'|
  }

  // An entry keeps its side of the place stood at.
  lemma GrowsInOrder(less: KeyOrder, s: seq<Entry>, p: int, s': seq<Entry>, p': int, stable: nat, i: nat, j: nat)
    requires TotalOrder(less) && Sorted(less, s) && -1 <= p <= |s| && Grows(less, s, p, s', p', stable)
    requires i < |s| && j < |s'| && s[i] == s'[j]
    ensures (i < p <==> j < p') && (i == p <==> j == p')
  {
    if 0 <= p < |s| {
      assert i < p ==> Precedes(less, s[i], s[p]);
      assert p < i ==> Precedes(less, s[p], s[i]);
      assert j < p' ==> Precedes(less, s'[j], s'[p']);
      assert p' < j ==> Precedes(less, s'[p'], s'[j]);
    }
  }

  lemma StandsOffStill(less: KeyOrder, s: seq<Entry>, p: int, s': seq<Entry>, p': int, x: Entry, forward: bool,
                       stable: nat)
    requires TotalOrder(less) && Sorted(less, s) && -1 <= p <= |s| && Grows(less, s, p, s', p', stable)
    requires StandsOff(less, s, p, x, forward, stable)
    ensures StandsOff(less, s', p', x, forward, stable)
  {
    forall j | 0 <= j < |s'| && if forward then j < p' && Counts(Some(stable), s'[j]) else j <= p'
      ensures Precedes(less, s'[j], x)
    {
      if j == p' {
        assert s'[j] == s[p];
      } else if s'[j] in s {
        var i :| 0 <= i < |s| && s[i] == s'[j];
        GrowsInOrder(less, s, p, s', p', stable, i, j);
      } else {
        Transitive(less, s'[j], s'[p'], x);
      }
    }
    forall j | 0 <= j < |s'| && if forward then p' <= j else p' < j && Counts(Some(stable), s'[j])
      ensures Precedes(less, x, s'[j])
    {
      if j == p' {
        assert s'[j] == s[p];
      } else if s'[j] in s {
        var i :| 0 <= i < |s| && s[i] == s'[j];
        GrowsInOrder(less, s, p, s', p', stable, i, j);
      } else {
        Transitive(less, x, s'[p'], s'[j]);
      }
    }
  }

  class MergingIterator {
    const less: KeyOrder
    const stable: nat
    var sources: seq<seq<Entry>>
    var pos: seq<int>
    var current: Option<nat>
    var forward: bool

    // Children that have run off either end are not valid.
    predicate ChildValid(i: nat)
      requires i < |sources| == |pos|
      reads this`sources, this`pos
    {
      0 <= pos[i] < |sources[i]|
    }

    function Stands(): (e: Option<Entry>)
      reads this
    {
      if current.Some? && current.value < |sources| == |pos| && ChildValid(current.value)
      then Some(sources[current.value][pos[current.value]]) else None
    }

    ghost predicate Placed(i: nat, x: Entry)
      requires i < |sources| == |pos|
      reads this
    {
      StandsOff(less, sources[i], pos[i], x, forward, stable)
    }

    // The other children are just ahead of the current entry, or just behind it.
    ghost predicate Valid()
      reads this
    {
      && Mergeable(less, sources) && |pos| == |sources|
      && (forall i :: 0 <= i < |sources| ==> -1 <= pos[i] <= |sources[i]|)
      && (current.Some? ==>
            && current.value < |sources| && ChildValid(current.value)
            && forall i :: 0 <= i < |sources| && i != current.value
                 ==> Placed(i, sources[current.value][pos[current.value]]))
    }

    constructor (less: KeyOrder, stable: nat, sources: seq<seq<Entry>>)
      requires Mergeable(less, sources)
      ensures Valid() && current == None
      ensures this.less == less && this.stable == stable && this.sources == sources
    {
      this.less, this.stable, this.sources := less, stable, sources;
      pos, current, forward := seq(|sources|, _ => -1), None, true;
    }

    // The child with the least entry, of those that are valid.
    method FindSmallest(ghost es: set<Entry>, ghost lo: Option<nat>)
      requires Mergeable(less, sources) && forward && (lo == None || lo == Some(stable))
      requires Cut(less, sources, pos, lo, None) && IsUpper(sources, pos, es, lo)
      modifies this`current
      ensures Valid() && LandsOnLeast(less, es, Stands(), lo)
    {
      hide Cut;
      hide Places;
      hide IsUpper;
      hide Mergeable;
      hide Precedes;
      hide Least;
      hide Ahead;
      hide Placed;
      CutHasPlaces(less, sources, pos, lo, None);
      AllInRange(sources, pos);
      var smallest: Option<nat> := None;
      for i := 0 to |sources|
        invariant SmallestOf(less, sources, pos, i, smallest)
      {
        OneMoreSmallest(less, sources, pos, i, smallest);
        if ChildValid(i) {
          if smallest.None? || Precedes(less, sources[i][pos[i]], sources[smallest.value][pos[smallest.value]]) {
            smallest := Some(i);
          }
        }
      }
      current := smallest;
      if current.None? {
        NoneAbove(less, sources, pos, es, lo);
      } else {
        LeastAbove(less, sources, pos, es, current.value, lo);
        AllStandOff(current.value, lo);
      }
    }

    // The child with the greatest entry, of those that are valid.
    method FindLargest(ghost es: set<Entry>, ghost hi: Option<nat>)
      requires Mergeable(less, sources) && !forward && (hi == None || hi == Some(stable))
      requires Cut(less, sources, Up(pos), None, hi) && IsLower(sources, Up(pos), es, hi)
      modifies this`current
      ensures Valid() && LandsOnGreatest(less, es, Stands(), hi)
    {
      hide Cut;
      hide Places;
      hide IsLower;
      hide Mergeable;
      hide Precedes;
      hide Greatest;
      hide Ahead;
      hide Placed;
      CutHasPlaces(less, sources, Up(pos), None, hi);
      AllInRange(sources, Up(pos));
      var largest: Option<nat> := None;
      for i := |sources| downto 0
        invariant LargestOf(less, sources, pos, i, largest)
      {
        OneMoreLargest(less, sources, pos, i, largest);
        if ChildValid(i) {
          if largest.None? || Precedes(less, sources[largest.value][pos[largest.value]], sources[i][pos[i]]) {
            largest := Some(i);
          }
        }
      }
      current := largest;
      if current.None? {
        NoneBelow(less, sources, pos, es, hi);
      } else {
        GreatestBelow(less, sources, pos, es, current.value, hi);
        AllStandOff(current.value, hi);
      }
    }

    lemma AllStandOff(c: nat, bound: Option<nat>)
      requires c < |sources| == |pos| && ChildValid(c) && (bound == None || bound == Some(stable))
      requires var x := sources[c][pos[c]];
        forall i :: 0 <= i < |sources| && i != c ==>
          if forward then Ahead(less, sources[i], pos[i], x, bound, None)
          else Ahead(less, sources[i], pos[i] + 1, x, None, bound)
      ensures forall i :: 0 <= i < |sources| && i != c ==> Placed(i, sources[c][pos[c]])
    {
      var x := sources[c][pos[c]];
      hide Ahead;
      forall i | 0 <= i < |sources| && i != c
        ensures Placed(i, x)
      {
        if bound.None? {
          if forward {
            AheadForAll(less, sources[i], pos[i], x, Some(stable), None);
          } else {
            AheadForAll(less, sources[i], pos[i] + 1, x, None, Some(stable));
          }
        }
      }
    }

    method SeekToFirst()
      requires Valid()
      modifies this`pos, this`current, this`forward
      ensures Valid() && LandsOnLeast(less, AllOf(sources), Stands(), None)
    {
      hide *;
      SourcesAreMergeable();
      pos := seq(|sources|, _ => 0);
      EverythingAbove(less, sources, pos);
      forward := true;
      FindSmallest(AllOf(sources), None);
    }

    method SeekToLast()
      requires Valid()
      modifies this`pos, this`current, this`forward
      ensures Valid() && LandsOnGreatest(less, AllOf(sources), Stands(), None)
    {
      hide *;
      SourcesAreMergeable();
      pos := seq(|sources|, i requires 0 <= i < |sources| reads this => |sources[i]| - 1);
      EverythingBelow(less, sources, Up(pos));
      forward := false;
      FindLargest(AllOf(sources), None);
    }

    // The first entry at or after the target.
    method Seek(target: Entry)
      requires Valid()
      modifies this`pos, this`current, this`forward
      ensures Valid() && LandsOnLeast(less, From(less, AllOf(sources), target), Stands(), None)
    {
      hide *;
      SourcesAreMergeable();
      pos := [];
      for i := 0 to |sources|
        invariant |pos| == i && forall j :: 0 <= j < i ==> pos[j] == LowerBound(less, sources[j], target)
      {
        pos := pos + [LowerBound(less, sources[i], target)];
      }
      AroundTarget(less, sources, pos, target);
      AroundIsCut(less, sources, pos, target, false, None, None);
      UpperIsFrom(less, sources, pos, target);
      forward := true;
      FindSmallest(From(less, AllOf(sources), target), None);
    }

    // Of the entries behind the current one the least is next, whatever came in
    // behind the children's backs.
    method Next()
      requires Valid() && current.Some?
      modifies this`pos, this`current, this`forward
      ensures Valid() && old(Stands()).Some?
      ensures LandsOnLeast(less, After(less, AllOf(sources), old(Stands()).value), Stands(), Some(stable))
    {
      hide Mergeable;
      hide Ahead;
      hide TotalOrder;
      hide LandsOnLeast;
      SourcesAreMergeable();
      OthersPlaced();
      var c := current.value;
      var key := sources[c][pos[c]];
      ghost var at := pos[c];
      if !forward {
        // Going the other way, the others may stand anywhere before the key.
        for i := 0 to |sources|
          invariant |pos| == |sources| && pos[c] == at
          invariant forall j :: 0 <= j < i && j != c ==> Ahead(less, sources[j], pos[j], key, Some(stable), None)
        {
          if i != c {
            SeeksApart(less, sources, c, at, i);
            pos := pos[i := SeekPast(less, sources[i], key)];
            AheadForAll(less, sources[i], pos[i], key, Some(stable), None);
          }
        }
        forward := true;
      }
      assert forall i :: 0 <= i < |sources| && i != c ==> Ahead(less, sources[i], pos[i], key, Some(stable), None);
      pos := pos[c := pos[c] + 1];
      AroundCurrent(less, sources, pos, c, true, Some(stable), None);
      hide Placed;
      hide Valid;
      AroundIsCut(less, sources, pos, key, true, Some(stable), None);
      UpperIsAfter(less, sources, pos, key, Some(stable));
      FindSmallest(After(less, AllOf(sources), key), Some(stable));
    }

    method Prev()
      requires Valid() && current.Some?
      modifies this`pos, this`current, this`forward
      ensures Valid() && old(Stands()).Some?
      ensures LandsOnGreatest(less, UpTo(less, AllOf(sources), old(Stands()).value), Stands(), Some(stable))
    {
      hide Mergeable;
      hide Ahead;
      hide TotalOrder;
      hide LandsOnGreatest;
      SourcesAreMergeable();
      OthersPlaced();
      var c := current.value;
      var key := sources[c][pos[c]];
      ghost var at := pos[c];
      if forward {
        // Going the other way, the others may stand anywhere behind the key.
        for i := 0 to |sources|
          invariant |pos| == |sources| && pos[c] == at
          invariant forall j :: 0 <= j < i && j != c ==> Ahead(less, sources[j], pos[j] + 1, key, None, Some(stable))
        {
          if i != c {
            SeeksApart(less, sources, c, at, i);
            pos := pos[i := SeekShort(less, sources[i], key)];
            AheadForAll(less, sources[i], pos[i] + 1, key, None, Some(stable));
          }
        }
        forward := false;
      }
      assert forall i :: 0 <= i < |sources| && i != c ==> Ahead(less, sources[i], pos[i] + 1, key, None, Some(stable));
      pos := pos[c := pos[c] - 1];
      assert forall i :: 0 <= i < |sources| && i != c ==> Ahead(less, sources[i], Up(pos)[i], key, None, Some(stable));
      AroundCurrent(less, sources, Up(pos), c, false, None, Some(stable));
      hide Placed;
      hide Valid;
      AroundIsCut(less, sources, Up(pos), key, false, None, Some(stable));
      LowerIsUpTo(less, sources, Up(pos), key, Some(stable));
      FindLargest(UpTo(less, AllOf(sources), key), Some(stable));
    }

    // New entries come into some of the sources; no child moves off its entry.
    method Grow(grown: seq<seq<Entry>>, at: seq<int>)
      requires Valid() && Apart(grown) && |grown| == |sources| == |at|
      requires forall i :: 0 <= i < |grown| ==> Grows(less, sources[i], pos[i], grown[i], at[i], stable)
      modifies this`sources, this`pos
      ensures Valid() && sources == grown && pos == at && Stands() == old(Stands())
    {
      SourcesAreMergeable();
      if current.Some? {
        OthersPlaced();
        var c := current.value;
        forall i | 0 <= i < |sources| && i != c
          ensures StandsOff(less, grown[i], at[i], sources[c][pos[c]], forward, stable)
        {
          StandsOffStill(less, sources[i], pos[i], grown[i], at[i], sources[c][pos[c]], forward, stable);
        }
      }
      hide StandsOff;
      hide Apart;
      sources, pos := grown, at;
    }

    lemma OthersPlaced()
      requires Valid() && current.Some?
      ensures current.value < |sources| == |pos| && ChildValid(current.value)
      ensures var key := sources[current.value][pos[current.value]];
        forall i :: 0 <= i < |sources| && i != current.value
          ==> StandsOff(less, sources[i], pos[i], key, forward, stable)
    {
      var key := sources[current.value][pos[current.value]];
      forall i | 0 <= i < |sources| && i != current.value
        ensures StandsOff(less, sources[i], pos[i], key, forward, stable)
      {
        assert Placed(i, key);
      }
    }

    lemma ValidStands()
      requires Valid()
      ensures current.Some? == Stands().Some?
    {
    }

    lemma SourcesAreMergeable()
      requires Valid()
      ensures Mergeable(less, sources) && TotalOrder(less) && |pos| == |sources|
    {
    }
  }

  // ----- One sorted sequence -----

  function Place(es: seq<Entry>, i: int): Option<Entry> {
    if 0 <= i < |es| then Some(es[i]) else None
  }

  // Over the sorted sequence of all entries the moves are steps to the neighbours.
  lemma NextIsNeighbour(less: KeyOrder, es: seq<Entry>, i: nat, y: Option<Entry>)
    requires TotalOrder(less) && Sorted(less, es) && i < |es|
    requires LandsOnLeast(less, After(less, (set e | e in es), es[i]), y, None)
    ensures y == Place(es, i + 1)
  {
    var later := After(less, (set e | e in es), es[i]);
    assert i + 1 < |es| ==> es[i + 1] in later;
    if y.Some? {
      var j :| 0 <= j < |es| && es[j] == y.value;
      assert j > i by { if j < i { NotBoth(less, es[j], es[i]); } }
      if j > i + 1 { NotBoth(less, es[i + 1], es[j]); }
    }
  }

  lemma PrevIsNeighbour(less: KeyOrder, es: seq<Entry>, i: nat, y: Option<Entry>)
    requires TotalOrder(less) && Sorted(less, es) && i < |es|
    requires LandsOnGreatest(less, UpTo(less, (set e | e in es), es[i]), y, None)
    ensures y == Place(es, i - 1)
  {
    var earlier := UpTo(less, (set e | e in es), es[i]);
    assert i > 0 ==> es[i - 1] in earlier;
    if y.Some? {
      var j :| 0 <= j < |es| && es[j] == y.value;
      assert j < i by { if j > i { NotBoth(less, es[i], es[j]); } }
      if j < i - 1 { NotBoth(less, es[j], es[i - 1]); }
    }
  }

  lemma SeekIsLowerBound(less: KeyOrder, es: seq<Entry>, target: Entry, y: Option<Entry>)
    requires TotalOrder(less) && Sorted(less, es)
    requires LandsOnLeast(less, From(less, (set e | e in es), target), y, None)
    ensures y == Place(es, LowerBound(less, es, target))
  {
    var p, later := LowerBound(less, es, target), From(less, (set e | e in es), target);
    assert p < |es| ==> es[p] in later;
    if y.Some? {
      var j :| 0 <= j < |es| && es[j] == y.value;
      assert j >= p;
      if j > p { NotBoth(less, es[p], es[j]); }
    }
  }

  // What has been read so far, and what is left.
  ghost predicate ReadSoFar(less: KeyOrder, all: set<Entry>, input: seq<Entry>, left: set<Entry>) {
    && Sorted(less, input) && left <= all && (forall e :: e in input <==> e in all && e !in left)
    && forall e, f :: e in input && f in left ==> Precedes(less, e, f)
  }

  lemma OneMoreRead(less: KeyOrder, all: set<Entry>, input: seq<Entry>, left: set<Entry>, x: Entry)
    requires TotalOrder(less) && ReadSoFar(less, all, input, left) && Least(less, left, x, None)
    ensures After(less, all, x) == left - {x} && ReadSoFar(less, all, input + [x], left - {x})
  {
    assert forall i :: 0 <= i < |input| ==> input[i] in input;
    forall e | e in all
      ensures Precedes(less, x, e) <==> e in left - {x}
    {
      if e in left {
        if e == x { NotSelf(less, x); }
      } else {
        assert e in input;
        NotBoth(less, e, x);
      }
    }
  }

  lemma AllCount(less: KeyOrder, all: set<Entry>, es: set<Entry>, y: Option<Entry>, bound: nat)
    requires es <= all && (forall e :: e in all ==> e.seqno <= bound) && LandsOnLeast(less, es, y, Some(bound))
    ensures LandsOnLeast(less, es, y, None)
  {
  }

  // From the first entry to the last: the merged sequence.
  method ReadAll(it: MergingIterator) returns (input: seq<Entry>)
    requires it.Valid() && forall e :: e in AllOf(it.sources) ==> e.seqno <= it.stable
    modifies it
    ensures it.Valid() && it.sources == old(it.sources)
    ensures Sorted(it.less, input) && (set e | e in input) == AllOf(it.sources)
  {
    ghost var all := AllOf(it.sources);
    hide MergingIterator.Valid;
    hide AllOf;
    it.SourcesAreMergeable();
    input := [];
    it.SeekToFirst();
    ghost var left := all;
    it.ValidStands();
    while it.current.Some?
      invariant it.Valid() && it.current.Some? == it.Stands().Some?
      invariant it.sources == old(it.sources)
      invariant ReadSoFar(it.less, all, input, left) && LandsOnLeast(it.less, left, it.Stands(), None)
      decreases left
    {
      var x := it.Stands().value;
      OneMoreRead(it.less, all, input, left, x);
      input := input + [x];
      left := left - {x};
      it.Next();
      AllCount(it.less, all, left, it.Stands(), it.stable);
      it.ValidStands();
    }
  }
}
