// The user-level iterator: a bidirectional cursor over multi-version entries
// that must look like a cursor over the plain sorted map at one sequence number.
module DBIter {
  import opened Basics
  import opened Entries

  // ----- The reference cursor over a sorted map -----

  datatype Cursor = Invalid | At(key: Key, value: Value)

  datatype Op = Seek(target: Key) | SeekToFirst | SeekToLast | Next | Prev

  ghost predicate LandsOnLeast(less: KeyOrder, m: map<Key, Value>, among: set<Key>, c: Cursor)
    requires among <= m.Keys
  {
    match c
    case Invalid => among == {}
    case At(k, v) => k in among && m[k] == v && forall x :: x in among ==> !less(x, k)
  }

  ghost predicate LandsOnGreatest(less: KeyOrder, m: map<Key, Value>, among: set<Key>, c: Cursor)
    requires among <= m.Keys
  {
    match c
    case Invalid => among == {}
    case At(k, v) => k in among && m[k] == v && forall x :: x in among ==> !less(k, x)
  }

  // One move of the reference cursor. A caller may not move an invalid cursor;
  // such a call is not made and leaves it invalid.
  ghost predicate Moves(less: KeyOrder, m: map<Key, Value>, c: Cursor, op: Op, c': Cursor) {
    match op
    case Seek(t) => LandsOnLeast(less, m, (set x | x in m && !less(x, t)), c')
    case SeekToFirst => LandsOnLeast(less, m, m.Keys, c')
    case SeekToLast => LandsOnGreatest(less, m, m.Keys, c')
    case Next => if c.Invalid? then c'.Invalid? else LandsOnLeast(less, m, (set x | x in m && less(c.key, x)), c')
    case Prev => if c.Invalid? then c'.Invalid? else LandsOnGreatest(less, m, (set x | x in m && less(x, c.key)), c')
  }

  // The reference cursor leaves the iterator no choice.
  lemma MovesIsDeterministic(less: KeyOrder, m: map<Key, Value>, c: Cursor, op: Op, c1: Cursor, c2: Cursor)
    requires TotalOrder(less)
    requires Moves(less, m, c, op, c1) && Moves(less, m, c, op, c2)
    ensures c1 == c2
  {
    if c1.At? && c2.At? {
      assert c1.key == c2.key;
    }
  }

  // ----- The internal iterator (contract of the merging iterator) -----

  // Entries up to number stable do not change under it; newer ones appear at any
  // time, and a step may pass over those that came in behind its back.
  class InternalIterator {
    const less: KeyOrder
    const stable: nat
    var entries: seq<Entry>
    // -1 and |entries| both stand for the single invalid state.
    var pos: int

    constructor (less: KeyOrder, stable: nat, entries: seq<Entry>)
      ensures this.less == less && this.stable == stable && this.entries == entries && pos == -1
    {
      this.less, this.stable, this.entries, pos := less, stable, entries, -1;
    }

    predicate Valid()
      reads this
    {
      0 <= pos < |entries|
    }

    ghost predicate Shape()
      reads this`entries
    {
      TotalOrder(less) && Sorted(less, entries)
    }

    ghost predicate Ok()
      reads this
    {
      Shape() && -1 <= pos <= |entries|
    }

    // From lo up to hi all entries are newer than the stable ones.
    predicate MayPass(lo: int, hi: int)
      reads this`entries
    {
      0 <= lo <= hi <= |entries| && forall j :: lo <= j < hi ==> entries[j].seqno > stable
    }

    method SeekToFirst()
      modifies this`pos
      ensures pos == 0
    {
      pos := 0;
    }

    method SeekToLast()
      modifies this`pos
      ensures pos == |entries| - 1
    {
      pos := |entries| - 1;
    }

    method Next()
      requires Valid()
      modifies this`pos
      ensures old(pos) < pos <= |entries| && MayPass(old(pos) + 1, pos)
    {
      assert MayPass(pos + 1, pos + 1);
      var next: int :| pos < next <= |entries| && MayPass(pos + 1, next);
      pos := next;
    }

    method Prev()
      requires Valid()
      modifies this`pos
      ensures -1 <= pos < old(pos) && MayPass(pos + 1, old(pos))
    {
      assert MayPass(pos, pos);
      var previous: int :| -1 <= previous < pos && MayPass(previous + 1, pos);
      pos := previous;
    }

    // Position at the first entry at or after (key, seqno) in the internal order.
    method Seek(key: Key, seqno: nat)
      requires Ok()
      modifies this`pos
      ensures 0 <= pos <= |entries|
      ensures forall i :: 0 <= i < pos ==> Precedes(less, entries[i], Entry(key, seqno, Put, []))
      ensures forall i :: pos <= i < |entries| ==> !Precedes(less, entries[i], Entry(key, seqno, Put, []))
    {
      var target := Entry(key, seqno, Put, []);
      pos := 0;
      while pos < |entries| && Precedes(less, entries[pos], target)
        invariant 0 <= pos <= |entries|
        invariant forall i :: 0 <= i < pos ==> Precedes(less, entries[i], target)
      {
        pos := pos + 1;
      }
      if pos < |entries| {
        forall i | pos <= i < |entries|
          ensures !Precedes(less, entries[i], target)
        {
          assert i == pos || Precedes(less, entries[pos], entries[i]);
        }
      }
    }

    // The rest of the system at work: entries newer than the snapshot appear or
    // go out of sight, while the iterator keeps its current entry.
    method Interfere(s: nat, es: seq<Entry>, p: int)
      requires Ok() && Sorted(less, es)
      requires forall e: Entry :: e.seqno <= s ==> (e in entries <==> e in es)
      requires if Valid() then 0 <= p < |es| && es[p] == entries[pos] else p == if pos < 0 then -1 else |es|
      modifies this
      ensures Ok()
      ensures entries == es && pos == p
    {
      entries, pos := es, p;
    }
  }

  lemma SortedIsDistinct(less: KeyOrder, es: seq<Entry>)
    requires TotalOrder(less) && Sorted(less, es)
    ensures Distinct(set e | e in es)
  {
  }

  // ----- DBIter -----

  datatype Direction = Forward | Reverse

  class DBIter {
    const iter: InternalIterator
    const sequence: nat
    var direction: Direction
    var valid: bool
    var savedKey: Key
    var savedValue: Value

    constructor (iter: InternalIterator, sequence: nat)
      requires iter.Ok() && sequence <= iter.stable
      ensures this.iter == iter && this.sequence == sequence
      ensures Inv() && Current() == Invalid
    {
      this.iter, this.sequence := iter, sequence;
      direction, valid, savedKey, savedValue := Forward, false, [], [];
    }

    // Index i holds the entry a reader at `sequence` sees for its key.
    ghost predicate Yields(i: int)
      reads iter`entries
    {
      && 0 <= i < |iter.entries|
      && iter.entries[i].seqno <= sequence
      && iter.entries[i].kind.Put?
      && forall j :: 0 <= j < i && iter.entries[j].key == iter.entries[i].key ==> iter.entries[j].seqno > sequence
    }

    ghost predicate Inv()
      reads this, iter
    {
      && iter.Ok() && sequence <= iter.stable
      && (valid && direction.Forward? ==> Yields(iter.pos))
      && (valid && direction.Reverse? ==> AtSavedKey())
    }

    // Moving backwards, the internal iterator is before every entry of the
    // current key, and whatever lies in between is newer than the snapshot.
    ghost predicate AtSavedKey()
      reads this, iter
    {
      && -1 <= iter.pos < |iter.entries|
      && (exists i :: Yields(i) && iter.entries[i].key == savedKey && iter.entries[i].value == savedValue)
      && (forall j :: 0 <= j <= iter.pos ==> iter.less(iter.entries[j].key, savedKey))
      && NewerUpTo(iter.pos + 1, savedKey)
    }

    ghost function Map(): map<Key, Value>
      requires iter.Shape()
      reads iter`entries
    {
      SortedIsDistinct(iter.less, iter.entries);
      View((set e | e in iter.entries), sequence)
    }

    lemma MapIsView()
      requires iter.Shape()
      ensures Distinct(set e | e in iter.entries)
      ensures Map() == View((set e | e in iter.entries), sequence)
    {
      SortedIsDistinct(iter.less, iter.entries);
    }

    function Current(): Cursor
      requires valid && direction.Forward? ==> iter.Valid()
      reads this, iter
    {
      if !valid then Invalid
      else if direction.Forward? then At(iter.entries[iter.pos].key, iter.entries[iter.pos].value)
      else At(savedKey, savedValue)
    }

    lemma YieldsIsInMap(i: int)
      requires iter.Shape() && Yields(i)
      ensures iter.entries[i].key in Map() && Map()[iter.entries[i].key] == iter.entries[i].value
    {
      var es := set e | e in iter.entries;
      var e := iter.entries[i];
      SortedIsDistinct(iter.less, iter.entries);
      forall f | f in es && f.key == e.key && f.seqno <= sequence
        ensures f.seqno <= e.seqno
      {
        var j :| 0 <= j < |iter.entries| && iter.entries[j] == f;
        assert i < j ==> Precedes(iter.less, iter.entries[i], iter.entries[j]);
      }
      assert e in es && Newest(es, sequence, e);
    }

    lemma InMapYields(k: Key) returns (i: int)
      requires iter.Shape() && k in Map()
      ensures Yields(i) && iter.entries[i].key == k
    {
      var es := set e | e in iter.entries;
      SortedIsDistinct(iter.less, iter.entries);
      var e :| e in es && Newest(es, sequence, e) && e.kind.Put? && e.key == k;
      i :| 0 <= i < |iter.entries| && iter.entries[i] == e;
      forall j | 0 <= j < i && iter.entries[j].key == k
        ensures iter.entries[j].seqno > sequence
      {
        assert Precedes(iter.less, iter.entries[j], iter.entries[i]);
        assert iter.entries[j] in es;
      }
    }

    // From p on, whatever comes before the key is newer than the snapshot.
    ghost predicate NewerUpTo(p: nat, key: Key)
      reads iter`entries
    {
      forall j :: p <= j < |iter.entries| && iter.less(iter.entries[j].key, key) ==> iter.entries[j].seqno > sequence
    }

    // ----- Scanning forwards -----

    predicate Skips(skipping: bool, skip: Key, key: Key) {
      skipping && !iter.less(skip, key)
    }

    // The forward scan has come from start to p: a key with a visible entry
    // behind p is being skipped, everything skipped from p on was to be skipped
    // from the start, and nothing passed over was to be yielded.
    ghost predicate Scanned(start: nat, skipping0: bool, skip0: Key, p: int, skipping: bool, skip: Key)
      reads iter`entries
    {
      && start <= p <= |iter.entries|
      && (forall i, j ::
            && 0 <= i < p <= j < |iter.entries|
            && iter.entries[i].key == iter.entries[j].key && iter.entries[i].seqno <= sequence
            ==> Skips(skipping, skip, iter.entries[j].key))
      && (skipping ==> NewerUpTo(p, skip))
      && (forall j :: p <= j < |iter.entries| && Yields(j)
            ==> (Skips(skipping, skip, iter.entries[j].key) <==> Skips(skipping0, skip0, iter.entries[j].key)))
      && (forall j :: start <= j < p && Yields(j) ==> Skips(skipping0, skip0, iter.entries[j].key))
    }

    lemma ScanPast(start: nat, skipping0: bool, skip0: Key, p: nat, skipping: bool, skip: Key)
      requires iter.Shape() && p < |iter.entries|
      requires Scanned(start, skipping0, skip0, p, skipping, skip)
      requires iter.entries[p].seqno <= sequence ==>
        iter.entries[p].kind.Put? && Skips(skipping, skip, iter.entries[p].key)
      ensures Scanned(start, skipping0, skip0, p + 1, skipping, skip)
    {
      forall j | p < j < |iter.entries| && iter.entries[p].key == iter.entries[j].key
                 && iter.entries[p].seqno <= sequence
        ensures Skips(skipping, skip, iter.entries[j].key)
      {
      }
    }

    // What a step passes over is newer than the snapshot.
    lemma {:induction false} ScanOver(start: nat, skipping0: bool, skip0: Key, p: nat, skipping: bool, skip: Key,
                                      p': nat)
      requires iter.Shape() && p <= p' <= |iter.entries|
      requires Scanned(start, skipping0, skip0, p, skipping, skip)
      requires forall j :: p <= j < p' ==> iter.entries[j].seqno > sequence
      ensures Scanned(start, skipping0, skip0, p', skipping, skip)
      decreases p' - p
    {
      hide Scanned;
      if p < p' {
        ScanPast(start, skipping0, skip0, p, skipping, skip);
        ScanOver(start, skipping0, skip0, p + 1, skipping, skip, p');
      }
    }

    lemma ScanDeletion(start: nat, skipping0: bool, skip0: Key, p: nat, skipping: bool, skip: Key)
      requires iter.Shape() && p < |iter.entries|
      requires Scanned(start, skipping0, skip0, p, skipping, skip)
      requires iter.entries[p].seqno <= sequence && iter.entries[p].kind.Deletion?
      ensures Scanned(start, skipping0, skip0, p + 1, true, iter.entries[p].key)
    {
      var key := iter.entries[p].key;
      forall j | p < j < |iter.entries|
        ensures !iter.less(iter.entries[j].key, key)
        ensures Yields(j) ==> iter.less(key, iter.entries[j].key)
        ensures skipping ==> !iter.less(iter.entries[j].key, skip)
      {
        assert Precedes(iter.less, iter.entries[p], iter.entries[j]);
      }
    }

    lemma ScanFound(start: nat, skipping0: bool, skip0: Key, p: nat, skipping: bool, skip: Key)
      requires p < |iter.entries|
      requires Scanned(start, skipping0, skip0, p, skipping, skip)
      requires iter.entries[p].seqno <= sequence && iter.entries[p].kind.Put?
      requires !Skips(skipping, skip, iter.entries[p].key)
      ensures Yields(p) && !Skips(skipping0, skip0, iter.entries[p].key)
    {
    }

    lemma ScanMissedNone(start: nat, skipping0: bool, skip0: Key, p: nat, skipping: bool, skip: Key)
      requires Scanned(start, skipping0, skip0, p, skipping, skip)
      ensures NoneMissed(start, p, skipping0, skip0)
    {
    }

    // Between start and stop, only skipped keys yield.
    ghost predicate NoneMissed(start: nat, stop: int, skipping: bool, skip: Key)
      reads iter`entries
    {
      forall j :: start <= j < |iter.entries| && j < stop && Yields(j) ==> Skips(skipping, skip, iter.entries[j].key)
    }

    method FindNextUserEntry(skipping: bool)
      requires iter.Ok() && iter.Valid() && direction.Forward? && sequence <= iter.stable
      requires Scanned(iter.pos, skipping, savedKey, iter.pos, skipping, savedKey)
      modifies this`valid, this`savedKey, iter`pos
      ensures Inv()
      ensures valid ==> iter.pos >= old(iter.pos) && !Skips(skipping, old(savedKey), iter.entries[iter.pos].key)
      ensures NoneMissed(old(iter.pos), if valid then iter.pos else |iter.entries|, skipping, old(savedKey))
    {
      hide Scanned;
      hide TotalOrder;
      hide Sorted;
      hide NoneMissed;
      hide AtSavedKey;
      var skip := skipping;
      ghost var start, skip0 := iter.pos, savedKey;
      while true
        invariant iter.Ok() && iter.Valid()
        invariant Scanned(start, skipping, skip0, iter.pos, skip, savedKey)
        decreases |iter.entries| - iter.pos
      {
        var e := iter.entries[iter.pos];
        if e.seqno <= sequence && e.kind.Deletion? {
          ScanDeletion(start, skipping, skip0, iter.pos, skip, savedKey);
          savedKey := e.key;
          skip := true;
        } else if e.seqno <= sequence && !Skips(skip, savedKey, e.key) {
          ScanFound(start, skipping, skip0, iter.pos, skip, savedKey);
          ScanMissedNone(start, skipping, skip0, iter.pos, skip, savedKey);
          valid := true;
          savedKey := [];
          return;
        } else {
          ScanPast(start, skipping, skip0, iter.pos, skip, savedKey);
        }
        ghost var p := iter.pos;
        iter.Next();
        ScanOver(start, skipping, skip0, p + 1, skip, savedKey, iter.pos);
        if !iter.Valid() {
          ScanMissedNone(start, skipping, skip0, iter.pos, skip, savedKey);
          break;
        }
      }
      savedKey := [];
      valid := false;
    }

    // ----- Scanning backwards -----

    // The backward scan has come from top to p. With a put in hand it is the
    // leftmost visible entry passed so far; nothing right of it yields.
    ghost predicate BackScanned(top: int, p: int, holding: bool, key: Key, value: Value)
      reads iter`entries
    {
      && -1 <= p <= top < |iter.entries|
      && (!holding ==> forall j :: p < j <= top ==> !Yields(j))
      && (holding ==> exists q :: Holds(top, p, q, key, value))
    }

    ghost predicate Holds(top: int, p: int, q: int, key: Key, value: Value)
      reads iter`entries
    {
      && -1 <= p < q <= top < |iter.entries|
      && iter.entries[q].seqno <= sequence && iter.entries[q].kind.Put?
      && iter.entries[q].key == key && iter.entries[q].value == value
      && (forall j :: p < j < q ==> iter.entries[j].seqno > sequence)
      && (forall j :: q < j <= top ==> !Yields(j))
    }

    lemma BackPast(top: int, p: nat, holding: bool, key: Key, value: Value)
      requires BackScanned(top, p, holding, key, value)
      requires iter.entries[p].seqno > sequence
      ensures BackScanned(top, p - 1, holding, key, value)
    {
      if holding {
        var q :| Holds(top, p, q, key, value);
        assert Holds(top, p - 1, q, key, value);
      }
    }

    lemma {:induction false} BackOver(top: int, p: int, holding: bool, key: Key, value: Value, p': int)
      requires BackScanned(top, p, holding, key, value) && -1 <= p' <= p
      requires forall j :: p' < j <= p ==> iter.entries[j].seqno > sequence
      ensures BackScanned(top, p', holding, key, value)
      decreases p - p'
    {
      hide BackScanned;
      if p' < p {
        BackPast(top, p, holding, key, value);
        BackOver(top, p - 1, holding, key, value, p');
      }
    }

    // A visible entry replaces the one in hand when that one has the same key,
    // or when none is in hand.
    lemma BackTake(top: int, p: nat, holding: bool, key: Key, value: Value)
      requires iter.Shape() && BackScanned(top, p, holding, key, value)
      requires iter.entries[p].seqno <= sequence
      requires holding ==> !iter.less(iter.entries[p].key, key)
      ensures BackScanned(top, p - 1, iter.entries[p].kind.Put?, iter.entries[p].key, iter.entries[p].value)
      ensures iter.entries[p].kind.Deletion? ==> BackScanned(top, p - 1, false, [], [])
    {
      if holding {
        var q :| Holds(top, p, q, key, value);
        assert Precedes(iter.less, iter.entries[p], iter.entries[q]);
        assert iter.entries[p].key == iter.entries[q].key;
        assert forall j :: p < j <= top ==> !Yields(j);
      }
      assert forall j :: p < j <= top ==> !Yields(j);
      if iter.entries[p].kind.Put? {
        assert Holds(top, p - 1, p, iter.entries[p].key, iter.entries[p].value);
      }
    }

    lemma BackStart(top: int)
      requires -1 <= top < |iter.entries|
      ensures BackScanned(top, top, false, savedKey, savedValue)
    {
    }

    // Up to top, the last index that yields carries this key and value.
    ghost predicate LastYield(top: int, q: int, key: Key, value: Value)
      reads iter`entries
    {
      && q <= top && Yields(q)
      && iter.entries[q].key == key && iter.entries[q].value == value
      && forall j :: q < j <= top ==> !Yields(j)
    }

    // Where the backward scan ends, and what it has found.
    ghost predicate BackFound(top: int, p: int, key: Key, value: Value)
      reads iter`entries
    {
      && -1 <= p < |iter.entries|
      && (exists q :: LastYield(top, q, key, value))
      && (forall j :: 0 <= j <= p ==> iter.less(iter.entries[j].key, key))
      && NewerUpTo(p + 1, key)
    }

    lemma BackStop(top: int, p: int, key: Key, value: Value)
      requires iter.Shape() && BackScanned(top, p, true, key, value)
      requires p >= 0 ==> iter.less(iter.entries[p].key, key)
      ensures BackFound(top, p, key, value)
    {
      var q :| Holds(top, p, q, key, value);
      forall j | 0 <= j <= p
        ensures iter.less(iter.entries[j].key, key)
      {
        assert j < p ==> Precedes(iter.less, iter.entries[j], iter.entries[p]);
      }
      assert LastYield(top, q, key, value);
    }

    ghost predicate NoYield(top: int)
      reads iter`entries
    {
      forall j :: 0 <= j <= top ==> !Yields(j)
    }

    lemma BackNone(top: int)
      requires BackScanned(top, -1, false, savedKey, savedValue)
      ensures NoYield(top)
    {
    }

    method FindPrevUserEntry()
      requires iter.Shape() && -1 <= iter.pos < |iter.entries| && direction.Reverse? && sequence <= iter.stable
      modifies this`valid, this`direction, this`savedKey, this`savedValue, iter`pos
      ensures valid ==> direction.Reverse? && BackFound(old(iter.pos), iter.pos, savedKey, savedValue)
      // It stops at a visible entry, or goes back all the way.
      ensures valid && iter.pos >= 0 ==> iter.entries[iter.pos].seqno <= sequence
      ensures !valid ==> direction.Forward? && iter.pos == -1 && NoYield(old(iter.pos))
    {
      hide BackScanned;
      hide BackFound;
      hide NoYield;
      hide TotalOrder;
      hide Sorted;
      var holding := false;
      ghost var top := iter.pos;
      BackStart(top);
      if iter.Valid() {
        while true
          invariant iter.Shape() && iter.Valid() && direction.Reverse?
          invariant BackScanned(top, iter.pos, holding, savedKey, savedValue)
          decreases iter.pos
        {
          var e := iter.entries[iter.pos];
          if e.seqno <= sequence {
            if holding && iter.less(e.key, savedKey) {
              break;
            }
            BackTake(top, iter.pos, holding, savedKey, savedValue);
            holding := e.kind.Put?;
            if holding {
              savedKey, savedValue := e.key, e.value;
            } else {
              savedKey, savedValue := [], [];
            }
          } else {
            BackPast(top, iter.pos, holding, savedKey, savedValue);
          }
          ghost var p := iter.pos;
          iter.Prev();
          BackOver(top, p - 1, holding, savedKey, savedValue, iter.pos);
          if !iter.Valid() {
            break;
          }
        }
      }
      if !holding {
        BackNone(top);
        valid := false;
        savedKey, savedValue := [], [];
        direction := Forward;
      } else {
        BackStop(top, iter.pos, savedKey, savedValue);
        valid := true;
      }
    }

    // ----- From indices to the map -----

    lemma LandsForward(start: nat, skipping: bool, skip: Key, among: set<Key>, found: bool, p: int)
      requires iter.Shape() && among <= Map().Keys
      requires forall j :: Yields(j)
                 ==> (iter.entries[j].key in among <==> j >= start && !Skips(skipping, skip, iter.entries[j].key))
      requires found ==> Yields(p) && p >= start && !Skips(skipping, skip, iter.entries[p].key)
      requires NoneMissed(start, if found then p else |iter.entries|, skipping, skip)
      ensures LandsOnLeast(iter.less, Map(), among,
                           if found then At(iter.entries[p].key, iter.entries[p].value) else Invalid)
    {
      hide Map;
      forall x | x in among
        ensures found && !iter.less(x, iter.entries[p].key)
      {
        var i := InMapYields(x);
        assert found && p <= i;
        assert p < i ==> Precedes(iter.less, iter.entries[p], iter.entries[i]);
      }
      if found {
        YieldsIsInMap(p);
      }
    }

    lemma LandsBackward(top: int, among: set<Key>, found: bool, p: int, key: Key, value: Value)
      requires iter.Shape() && among <= Map().Keys
      requires forall j :: Yields(j) ==> (iter.entries[j].key in among <==> j <= top)
      requires if found then BackFound(top, p, key, value) else NoYield(top)
      ensures LandsOnGreatest(iter.less, Map(), among, if found then At(key, value) else Invalid)
    {
      hide Map;
      if found {
        var q :| LastYield(top, q, key, value);
        YieldsIsInMap(q);
        forall x | x in among
          ensures !iter.less(key, x)
        {
          var i := InMapYields(x);
          assert i < q ==> Precedes(iter.less, iter.entries[i], iter.entries[q]);
        }
      } else {
        forall x | x in among
          ensures false
        {
          var i := InMapYields(x);
        }
      }
    }

    // ----- The five moves -----

    // The seek position separates what is before the target from what is visible from it on.
    ghost predicate Splits(start: nat, target: Key)
      reads iter`entries
    {
      && start <= |iter.entries|
      && (forall i :: 0 <= i < start ==> Precedes(iter.less, iter.entries[i], Entry(target, sequence, Put, [])))
      && (forall i :: start <= i < |iter.entries|
            ==> !Precedes(iter.less, iter.entries[i], Entry(target, sequence, Put, [])))
    }

    lemma SplitsStartsScan(start: nat, target: Key, skip: Key)
      requires iter.Shape() && Splits(start, target)
      ensures Scanned(start, false, skip, start, false, skip)
      ensures forall j :: Yields(j) ==> (j >= start <==> !iter.less(iter.entries[j].key, target))
    {
    }

    lemma SeekLands(start: nat, target: Key, skip: Key, found: bool, p: int)
      requires iter.Shape() && Splits(start, target)
      requires found ==> Yields(p) && p >= start
      requires NoneMissed(start, if found then p else |iter.entries|, false, skip)
      ensures LandsOnLeast(iter.less, Map(), (set x | x in Map() && !iter.less(x, target)),
                           if found then At(iter.entries[p].key, iter.entries[p].value) else Invalid)
    {
      SplitsStartsScan(start, target, skip);
      forall j | Yields(j)
        ensures iter.entries[j].key in Map()
      {
        YieldsIsInMap(j);
      }
      LandsForward(start, false, skip, (set x | x in Map() && !iter.less(x, target)), found, p);
    }

    method Seek(target: Key)
      requires Inv()
      modifies this, iter`pos
      ensures Inv()
      ensures Moves(iter.less, Map(), old(Current()), Op.Seek(target), Current())
    {
      hide Scanned;
      hide NoneMissed;
      hide TotalOrder;
      hide Sorted;
      direction := Forward;
      savedValue := [];
      savedKey := target;
      iter.Seek(target, sequence);
      ghost var start := iter.pos;
      assert Splits(start, target);
      hide Splits;
      SplitsStartsScan(start, target, savedKey);
      NothingMissedAtEnd(start, false, savedKey);
      if iter.Valid() {
        FindNextUserEntry(false);
      } else {
        valid := false;
      }
      SeekLands(start, target, target, valid, iter.pos);
    }

    lemma NothingMissedAtEnd(start: nat, skipping: bool, skip: Key)
      ensures start >= |iter.entries| ==> NoneMissed(start, |iter.entries|, skipping, skip)
    {
    }

    lemma FirstStartsScan(skip: Key)
      ensures Scanned(0, false, skip, 0, false, skip)
    {
    }

    lemma FirstLands(skip: Key, found: bool, p: int)
      requires iter.Shape()
      requires found ==> Yields(p)
      requires NoneMissed(0, if found then p else |iter.entries|, false, skip)
      ensures LandsOnLeast(iter.less, Map(), Map().Keys,
                           if found then At(iter.entries[p].key, iter.entries[p].value) else Invalid)
    {
      forall j | Yields(j)
        ensures iter.entries[j].key in Map().Keys
      {
        YieldsIsInMap(j);
      }
      LandsForward(0, false, skip, Map().Keys, found, p);
    }

    method SeekToFirst()
      requires Inv()
      modifies this, iter`pos
      ensures Inv()
      ensures Moves(iter.less, Map(), old(Current()), Op.SeekToFirst, Current())
    {
      hide Scanned;
      hide NoneMissed;
      hide TotalOrder;
      hide Sorted;
      direction := Forward;
      savedValue := [];
      iter.SeekToFirst();
      ghost var skip := savedKey;
      FirstStartsScan(skip);
      NothingMissedAtEnd(0, false, skip);
      if iter.Valid() {
        FindNextUserEntry(false);
      } else {
        valid := false;
      }
      FirstLands(skip, valid, iter.pos);
    }

    method SeekToLast()
      requires Inv()
      modifies this, iter`pos
      ensures Inv()
      ensures Moves(iter.less, Map(), old(Current()), Op.SeekToLast, Current())
      ensures valid ==> direction.Reverse? && (iter.pos >= 0 ==> iter.entries[iter.pos].seqno <= sequence)
    {
      hide BackFound;
      hide NoYield;
      hide TotalOrder;
      hide Sorted;
      direction := Reverse;
      savedValue := [];
      iter.SeekToLast();
      ghost var top := iter.pos;
      FindPrevUserEntry();
      LastLands(top, valid, iter.pos, savedKey, savedValue);
      if valid {
        BackFoundIsAt(top);
      }
    }

    lemma LastLands(top: int, found: bool, p: int, k: Key, v: Value)
      requires iter.Shape() && top == |iter.entries| - 1
      requires if found then BackFound(top, p, k, v) else NoYield(top)
      ensures LandsOnGreatest(iter.less, Map(), Map().Keys, if found then At(k, v) else Invalid)
    {
      forall j | Yields(j)
        ensures iter.entries[j].key in Map().Keys
      {
        YieldsIsInMap(j);
      }
      LandsBackward(top, Map().Keys, found, p, k, v);
    }

    lemma NextStartsScan(p: nat)
      requires iter.Shape() && Yields(p)
      ensures Scanned(p, true, iter.entries[p].key, p, true, iter.entries[p].key)
      ensures AllAheadFrom(p, iter.entries[p].key)
    {
    }

    lemma TurnStartsScan()
      requires iter.Shape() && AtSavedKey()
      ensures iter.pos + 1 < |iter.entries|
      ensures forall p :: StepsOver(iter.pos, p) ==> p < |iter.entries| && Scanned(p, true, savedKey, p, true, savedKey)
      ensures forall p :: StepsOver(iter.pos, p) ==> AllAheadFrom(p, savedKey)
    {
    }

    // Between the two places there are only entries above the snapshot.
    ghost predicate StepsOver(p: int, p': int)
      reads iter`entries
    {
      -1 <= p < p' <= |iter.entries| && forall j :: p < j < p' ==> iter.entries[j].seqno > sequence
    }

    // Yielding entries past the key lie at or after start.
    ghost predicate AllAheadFrom(start: int, key: Key)
      reads iter`entries
    {
      forall j :: Yields(j) && iter.less(key, iter.entries[j].key) ==> j >= start
    }

    lemma NextLands(start: nat, key: Key, found: bool, p: int)
      requires iter.Shape() && AllAheadFrom(start, key)
      requires found ==> Yields(p) && p >= start && !Skips(true, key, iter.entries[p].key)
      requires NoneMissed(start, if found then p else |iter.entries|, true, key)
      ensures LandsOnLeast(iter.less, Map(), (set x | x in Map() && iter.less(key, x)),
                           if found then At(iter.entries[p].key, iter.entries[p].value) else Invalid)
    {
      forall j | Yields(j)
        ensures iter.entries[j].key in Map()
      {
        YieldsIsInMap(j);
      }
      LandsForward(start, true, key, (set x | x in Map() && iter.less(key, x)), found, p);
    }

    method Next()
      requires Inv() && valid
      modifies this, iter`pos
      ensures Inv()
      ensures Moves(iter.less, Map(), old(Current()), Op.Next, Current())
    {
      hide TotalOrder;
      hide Sorted;
      hide Scanned;
      hide NoneMissed;
      hide AllAheadFrom;
      hide NewerUpTo;
      hide Map;
      if direction.Forward? {
        ForwardIsValid();
      }
      hide Yields;
      ghost var key := Current().key;
      if direction.Reverse? {
        TurnStartsScan();
        ghost var turned := iter.pos;
        direction := Forward;
        if !iter.Valid() {
          iter.SeekToFirst();
        } else {
          iter.Next();
        }
        assert StepsOver(turned, iter.pos);
        if !iter.Valid() {
          // The current key's own entries lie ahead, whatever the background did.
          assert false;
        }
      } else {
        NextStartsScan(iter.pos);
        savedKey := iter.entries[iter.pos].key;
      }
      ghost var start := iter.pos;
      FindNextUserEntry(true);
      NextLands(start, key, valid, iter.pos);
    }

    lemma PrevLands(top: int, key: Key, found: bool, p: int, k: Key, v: Value)
      requires iter.Shape() && -1 <= top < |iter.entries|
      requires forall j :: 0 <= j <= top ==> iter.less(iter.entries[j].key, key)
      requires NewerUpTo(top + 1, key)
      requires if found then BackFound(top, p, k, v) else NoYield(top)
      ensures LandsOnGreatest(iter.less, Map(), (set x | x in Map() && iter.less(x, key)),
                              if found then At(k, v) else Invalid)
    {
      forall j | Yields(j)
        ensures iter.entries[j].key in Map()
      {
        YieldsIsInMap(j);
      }
      LandsBackward(top, (set x | x in Map() && iter.less(x, key)), found, p, k, v);
    }

    lemma ForwardIsValid()
      requires Inv() && valid && direction.Forward?
      ensures iter.Valid()
    {
    }

    // Back from the current entry until the key changes, or off the front.
    method BackOverCurrentKey() returns (found: bool)
      requires iter.Shape() && iter.Valid() && direction.Forward? && savedKey == iter.entries[iter.pos].key
      requires sequence <= iter.stable
      modifies iter`pos
      ensures -1 <= iter.pos < |iter.entries| && found == (iter.pos >= 0)
      ensures forall j :: 0 <= j <= iter.pos ==> iter.less(iter.entries[j].key, savedKey)
      ensures NewerUpTo(iter.pos + 1, savedKey)
      ensures !found ==> NoYield(-1)
    {
      hide TotalOrder;
      hide Sorted;
      hide NoYield;
      hide NewerUpTo;
      NewerBehindHere(iter.pos);
      while true
        invariant iter.Shape() && iter.Valid() && NewerUpTo(iter.pos, savedKey)
        decreases iter.pos
      {
        ghost var p := iter.pos;
        iter.Prev();
        NewerBehindOver(iter.pos + 1, p, savedKey);
        if !iter.Valid() {
          NewerBehindStop(-1, savedKey);
          return false;
        }
        if iter.less(iter.entries[iter.pos].key, savedKey) {
          break;
        }
        NewerBehindStep(iter.pos, savedKey);
      }
      NewerBehindStop(iter.pos, savedKey);
      return true;
    }

    method Prev()
      requires Inv() && valid
      modifies this, iter`pos
      ensures Inv()
      ensures Moves(iter.less, Map(), old(Current()), Op.Prev, Current())
    {
      hide TotalOrder;
      hide Sorted;
      hide NoYield;
      hide BackFound;
      hide Map;
      hide NewerUpTo;
      if direction.Forward? {
        ForwardIsValid();
      }
      hide Yields;
      ghost var key := Current().key;
      if direction.Forward? {
        savedKey := iter.entries[iter.pos].key;
        var found := BackOverCurrentKey();
        if !found {
          valid := false;
          savedKey := [];
          savedValue := [];
          PrevLands(-1, key, false, -1, [], []);
          return;
        }
        direction := Reverse;
      }
      ghost var top := iter.pos;
      FindPrevUserEntry();
      PrevLands(top, key, valid, iter.pos, savedKey, savedValue);
      if valid {
        BackFoundIsAt(top);
      }
    }

    lemma NewerBehindHere(p: nat)
      requires iter.Shape() && p < |iter.entries|
      ensures NewerUpTo(p, iter.entries[p].key)
    {
    }

    lemma NewerBehindOver(p: nat, p': nat, key: Key)
      requires p <= p' <= |iter.entries| && NewerUpTo(p', key)
      requires forall j :: p <= j < p' ==> iter.entries[j].seqno > sequence
      ensures NewerUpTo(p, key)
    {
    }

    lemma NewerBehindStep(p: nat, key: Key)
      requires p < |iter.entries| && NewerUpTo(p + 1, key) && !iter.less(iter.entries[p].key, key)
      ensures NewerUpTo(p, key)
    {
    }

    lemma NewerBehindStop(p: int, key: Key)
      requires iter.Shape() && -1 <= p < |iter.entries|
      requires p >= 0 ==> iter.less(iter.entries[p].key, key)
      ensures forall j :: 0 <= j <= p ==> iter.less(iter.entries[j].key, key)
      ensures p == -1 ==> NoYield(-1)
    {
    }

    lemma BackFoundIsAt(top: int)
      requires BackFound(top, iter.pos, savedKey, savedValue)
      ensures AtSavedKey()
    {
    }

    // ----- The rest of the system between two moves -----

    lemma SameMap(less: KeyOrder, es: seq<Entry>, es': seq<Entry>)
      requires TotalOrder(less) && Sorted(less, es) && Sorted(less, es')
      requires forall e: Entry :: e.seqno <= sequence ==> (e in es <==> e in es')
      ensures Distinct(set e | e in es) && Distinct(set e | e in es')
      ensures View((set e | e in es), sequence) == View((set e | e in es'), sequence)
    {
      SortedIsDistinct(less, es);
      SortedIsDistinct(less, es');
      var s, s' := (set e | e in es), (set e | e in es');
      forall e: Entry
        ensures Newest(s, sequence, e) <==> Newest(s', sequence, e)
      {
      }
    }

    // Whatever yields keeps doing so: it is told by the entries at or below the snapshot.
    lemma StillYields(less: KeyOrder, es: seq<Entry>, i: int, es': seq<Entry>, i': int)
      requires TotalOrder(less) && Sorted(less, es) && Sorted(less, es')
      requires forall e: Entry :: e.seqno <= sequence ==> (e in es <==> e in es')
      requires 0 <= i < |es| && 0 <= i' < |es'| && es[i] == es'[i'] && es[i].seqno <= sequence
      requires forall j :: 0 <= j < i && es[j].key == es[i].key ==> es[j].seqno > sequence
      ensures forall j :: 0 <= j < i' && es'[j].key == es[i].key ==> es'[j].seqno > sequence
    {
    }

    lemma StillNewerUpTo(less: KeyOrder, es: seq<Entry>, p: int, es': seq<Entry>, p': int, key: Key)
      requires TotalOrder(less) && Sorted(less, es) && Sorted(less, es')
      requires forall e: Entry :: e.seqno <= sequence ==> (e in es <==> e in es')
      requires if 0 <= p < |es| then 0 <= p' < |es'| && es'[p'] == es[p] else p == p' == -1
      requires forall j :: p < j < |es| && less(es[j].key, key) ==> es[j].seqno > sequence
      ensures forall j :: p' < j < |es'| && less(es'[j].key, key) ==> es'[j].seqno > sequence
    {
    }

    lemma StillAtSavedKey(was: seq<Entry>, wasPos: int, at: int)
      requires iter.Shape() && Sorted(iter.less, was)
      requires forall e: Entry :: e.seqno <= sequence ==> (e in was <==> e in iter.entries)
      requires -1 <= wasPos < |was|
      requires if 0 <= wasPos then 0 <= iter.pos < |iter.entries| && iter.entries[iter.pos] == was[wasPos]
               else iter.pos == -1
      requires 0 <= at < |was| && was[at].seqno <= sequence && was[at].kind.Put?
      requires was[at].key == savedKey && was[at].value == savedValue
      requires forall j :: 0 <= j < at && was[j].key == was[at].key ==> was[j].seqno > sequence
      requires forall j :: 0 <= j <= wasPos ==> iter.less(was[j].key, savedKey)
      requires forall j :: wasPos < j < |was| && iter.less(was[j].key, savedKey) ==> was[j].seqno > sequence
      ensures AtSavedKey()
    {
      var at' :| 0 <= at' < |iter.entries| && iter.entries[at'] == was[at];
      StillYields(iter.less, was, at, iter.entries, at');
      assert Yields(at');
      StillNewerUpTo(iter.less, was, wasPos, iter.entries, iter.pos, savedKey);
      forall j | 0 <= j <= iter.pos
        ensures iter.less(iter.entries[j].key, savedKey)
      {
        assert j < iter.pos ==> Precedes(iter.less, iter.entries[j], iter.entries[iter.pos]);
      }
    }

    // Writers add entries above the snapshot, and such entries may drop out of
    // sight again; neither moves the cursor nor changes the map it walks.
    method Interfere(es: seq<Entry>, p: int)
      requires Inv() && Sorted(iter.less, es)
      requires forall e: Entry :: e.seqno <= sequence ==> (e in iter.entries <==> e in es)
      requires if iter.Valid() then 0 <= p < |es| && es[p] == iter.entries[iter.pos]
               else p == if iter.pos < 0 then -1 else |es|
      modifies iter
      ensures Inv() && iter.entries == es
      ensures Current() == old(Current()) && Map() == old(Map())
    {
      hide Map;
      hide TotalOrder;
      hide Sorted;
      hide View;
      hide Distinct;
      ghost var was, wasPos := iter.entries, iter.pos;
      MapIsView();
      ghost var at := 0;
      if valid && direction.Reverse? {
        at :| Yields(at) && iter.entries[at].key == savedKey && iter.entries[at].value == savedValue;
      }
      iter.Interfere(sequence, es, p);
      if valid {
        if direction.Forward? {
          StillYields(iter.less, was, wasPos, es, p);
        } else {
          StillAtSavedKey(was, wasPos, at);
        }
      }
      MapIsView();
      SameMap(iter.less, was, es);
    }
  }

  // ----- Whole runs -----

  // Between moves, the entries on hand may be replaced by others that agree
  // at and below the snapshot and still hold the current entry.
  datatype Event = Move(op: Op) | Background(entries: seq<Entry>, pos: int)

  ghost predicate FollowsReference(less: KeyOrder, m: map<Key, Value>, events: seq<Event>, trace: seq<Cursor>) {
    && |trace| == |events| + 1
    && forall i :: 0 <= i < |events| ==>
      match events[i]
      case Move(op) => Moves(less, m, trace[i], op, trace[i + 1])
      case Background(_, _) => trace[i + 1] == trace[i]
  }

  // The reference behaviour is one trace per run, so following it is behaving exactly like it.
  lemma {:induction false} ReferenceIsUnique(less: KeyOrder, m: map<Key, Value>, events: seq<Event>, t1: seq<Cursor>,
                                             t2: seq<Cursor>)
    requires TotalOrder(less)
    requires FollowsReference(less, m, events, t1) && FollowsReference(less, m, events, t2)
    requires t1[0] == t2[0]
    ensures t1 == t2
  {
    var i := 0;
    while i < |events|
      invariant 0 <= i <= |events|
      invariant t1[..i + 1] == t2[..i + 1]
    {
      if events[i].Move? {
        assert t1[i] == t1[..i + 1][i] == t2[..i + 1][i] == t2[i];
        MovesIsDeterministic(less, m, t1[i], events[i].op, t1[i + 1], t2[i + 1]);
      }
      assert t1[..i + 2] == t1[..i + 1] + [t1[i + 1]];
      assert t2[..i + 2] == t2[..i + 1] + [t2[i + 1]];
      i := i + 1;
    }
  }

  predicate IsAt(es: seq<Entry>, valid: bool, pos: int, es': seq<Entry>, p: int) {
    if valid then 0 <= pos < |es| && 0 <= p < |es'| && es'[p] == es[pos] else p == if pos < 0 then -1 else |es'|
  }

  method Perform(it: DBIter, op: Op)
    requires it.Inv()
    modifies it, it.iter`pos
    ensures it.Inv()
    ensures Moves(it.iter.less, it.Map(), old(it.Current()), op, it.Current())
  {
    match op
    case Seek(t) => it.Seek(t);
    case SeekToFirst => it.SeekToFirst();
    case SeekToLast => it.SeekToLast();
    case Next => if it.valid { it.Next(); }
    case Prev => if it.valid { it.Prev(); }
  }

  lemma FollowsOneMore(less: KeyOrder, m: map<Key, Value>, events: seq<Event>, trace: seq<Cursor>, event: Event,
                       c: Cursor)
    requires FollowsReference(less, m, events, trace)
    requires match event
             case Move(op) => Moves(less, m, trace[|events|], op, c)
             case Background(_, _) => c == trace[|events|]
    ensures FollowsReference(less, m, events + [event], trace + [c])
  {
    hide Moves;
  }

  // Any run of moves, in any order and with writers at work in between.
  method Run(it: DBIter, events: seq<Event>) returns (trace: seq<Cursor>)
    requires it.Inv()
    requires forall i :: 0 <= i < |events| && events[i].Background? ==> Sorted(it.iter.less, events[i].entries)
    requires forall i, e: Entry :: 0 <= i < |events| && events[i].Background? && e.seqno <= it.sequence
               ==> (e in it.iter.entries <==> e in events[i].entries)
    modifies it, it.iter
    ensures it.Inv()
    ensures FollowsReference(it.iter.less, old(it.Map()), events, trace) && trace[0] == old(it.Current())
  {
    hide it.Map;
    hide Moves;
    hide TotalOrder;
    hide Sorted;
    ghost var m := it.Map();
    trace := [it.Current()];
    var i := 0;
    while i < |events|
      invariant 0 <= i <= |events| && |trace| == i + 1
      invariant it.Inv() && it.Map() == m
      invariant trace[i] == it.Current() && trace[0] == old(it.Current())
      invariant forall e: Entry :: e.seqno <= it.sequence ==> (e in it.iter.entries <==> e in old(it.iter.entries))
      invariant FollowsReference(it.iter.less, m, events[..i], trace)
    {
      match events[i] {
        case Move(op) =>
          Perform(it, op);
        case Background(es, p) =>
          if IsAt(it.iter.entries, it.iter.Valid(), it.iter.pos, es, p) {
            it.Interfere(es, p);
          }
      }
      FollowsOneMore(it.iter.less, m, events[..i], trace, events[i], it.Current());
      trace := trace + [it.Current()];
      assert events[..i + 1] == events[..i] + [events[i]];
      i := i + 1;
    }
    assert events[..i] == events;
  }

  const NEWER_IN_FRONT := [Entry([1], 5, Put, [5]), Entry([2], 1, Put, [1])]

  lemma OneIsVisible(d: DBIter)
    requires d.Inv() && d.iter.entries == NEWER_IN_FRONT && d.sequence == 2
    requires LandsOnGreatest(d.iter.less, d.Map(), d.Map().Keys, d.Current())
    ensures d.valid && d.Current().key == [2]
  {
    hide Sorted;
    hide DBIter.Map;
    assert d.Yields(1);
    d.YieldsIsInMap(1);
    ghost var i := d.InMapYields(d.Current().key);
  }

  // So an entry above the snapshot can lie between the internal iterator and the
  // entries of the key it stands at in reverse.
  method PassesNewerEntries(less: KeyOrder) returns (d: DBIter)
    requires TotalOrder(less) && less([1], [2])
    ensures fresh(d) && fresh(d.iter) && d.Inv() && d.valid && d.direction.Reverse? && d.sequence == 2
    ensures d.iter.entries == NEWER_IN_FRONT && d.savedKey == [2] && d.iter.pos == -1
  {
    var iter := new InternalIterator(less, 2, NEWER_IN_FRONT);
    d := new DBIter(iter, 2);
    d.SeekToLast();
    OneIsVisible(d);
  }
}
