// The list of live snapshots: circular, doubly linked, with a dummy head.
module SnapshotLists {

  class SnapshotImpl {
    const number: nat
    var prev: SnapshotImpl
    var next: SnapshotImpl

    // A node that is a circle of its own.
    constructor (number: nat)
      ensures this.number == number && prev == this && next == this
    {
      this.number, prev, next := number, this, this;
    }
  }

  ghost predicate Linked(a: SnapshotImpl, b: SnapshotImpl)
    reads a, b
  {
    a.next == b && b.prev == a
  }

  ghost predicate Chain(c: seq<SnapshotImpl>)
    reads c
  {
    forall i :: 0 <= i < |c| - 1 ==> Linked(c[i], c[i + 1])
  }

  predicate Ascending(ns: seq<nat>) {
    forall i, j :: 0 <= i < j < |ns| ==> ns[i] <= ns[j]
  }

  function Without<T>(s: seq<T>, i: nat): seq<T>
    requires i < |s|
  {
    s[..i] + s[i + 1..]
  }

  lemma AscendingAdd(ns: seq<nat>, n: nat)
    requires Ascending(ns) && forall m :: m in ns ==> m <= n
    ensures Ascending(ns + [n])
  {
    assert forall i :: 0 <= i < |ns| ==> ns[i] in ns;
  }

  lemma AscendingWithout(ns: seq<nat>, i: nat)
    requires Ascending(ns) && i < |ns|
    ensures Ascending(Without(ns, i))
  {
  }

  lemma WithoutAt<T>(s: seq<T>, i: nat)
    requires i < |s|
    ensures |Without(s, i)| == |s| - 1
    ensures forall j :: 0 <= j < |s| - 1 ==> Without(s, i)[j] == s[if j < i then j else j + 1]
  {
  }

  lemma WithoutInside<T>(a: T, s: seq<T>, i: nat)
    requires i < |s|
    ensures [a] + Without(s, i) + [a] == Without([a] + s + [a], i + 1)
  {
  }

  class SnapshotList {
    const head: SnapshotImpl
    ghost var nodes: seq<SnapshotImpl>   // from the oldest to the newest

    // Once around: the head, the snapshots, and the head again.
    ghost function Circle(): (c: seq<SnapshotImpl>)
      reads this
      ensures |c| == |nodes| + 2
    {
      [head] + nodes + [head]
    }

    ghost predicate Valid()
      reads this, head, nodes
    {
      && head !in nodes
      && (forall i, j :: 0 <= i < j < |nodes| ==> nodes[i] != nodes[j])
      && Chain(Circle())
      && Ascending(Numbers())
    }

    ghost function Numbers(): (ns: seq<nat>)
      reads this
      ensures |ns| == |nodes|
    {
      seq(|nodes|, i requires 0 <= i < |nodes| reads this => nodes[i].number)
    }

    constructor ()
      ensures Valid() && nodes == [] && fresh(head)
    {
      head := new SnapshotImpl(0);
      nodes := [];
    }

    predicate Empty()
      requires Valid()
      reads this, head, nodes
      ensures Empty() <==> nodes == []
    {
      assert Linked(Circle()[0], Circle()[1]);
      head.next == head
    }

    function Oldest(): (s: SnapshotImpl)
      requires Valid() && !Empty()
      reads this, head, nodes
      ensures s == nodes[0] && forall t :: t in nodes ==> s.number <= t.number
    {
      assert Linked(Circle()[0], Circle()[1]);
      assert forall i :: 0 <= i < |nodes| ==> Numbers()[i] == nodes[i].number;
      head.next
    }

    function Newest(): (s: SnapshotImpl)
      requires Valid() && !Empty()
      reads this, head, nodes
      ensures s == nodes[|nodes| - 1] && forall t :: t in nodes ==> t.number <= s.number
    {
      assert Linked(Circle()[|nodes|], Circle()[|nodes| + 1]);
      assert forall i :: 0 <= i < |nodes| ==> Numbers()[i] == nodes[i].number;
      head.prev
    }

    method New(number: nat) returns (s: SnapshotImpl)
      requires Valid() && forall n :: n in Numbers() ==> n <= number
      modifies this, head, nodes
      ensures Valid() && fresh(s) && s.number == number
      ensures nodes == old(nodes) + [s] && Numbers() == old(Numbers()) + [number]
    {
      ghost var circle := Circle();
      assert Linked(circle[|nodes|], circle[|nodes| + 1]);
      s := new SnapshotImpl(number);
      s.next := head;
      s.prev := head.prev;
      s.prev.next := s;
      s.next.prev := s;
      nodes := nodes + [s];
      assert Circle() == circle[..|nodes|] + [s, head];
      forall i | 0 <= i <= |nodes|
        ensures Linked(Circle()[i], Circle()[i + 1])
      {
        assert i < |nodes| - 1 ==> old(Linked(circle[i], circle[i + 1]));
      }
      AscendingAdd(old(Numbers()), number);
      assert Numbers() == old(Numbers()) + [number];
    }

    method Delete(s: SnapshotImpl)
      requires Valid() && s in nodes
      modifies this, head, nodes
      ensures Valid() && exists i :: 0 <= i < |old(nodes)| && old(nodes)[i] == s
                                 && nodes == Without(old(nodes), i) && Numbers() == Without(old(Numbers()), i)
    {
      hide Ascending;
      hide Without;
      ghost var circle := Circle();
      ghost var i :| 0 <= i < |nodes| && nodes[i] == s;
      WithoutInside(head, nodes, i);
      WithoutAt(nodes, i);
      AscendingWithout(Numbers(), i);
      WithoutAt(Numbers(), i);
      Unlink(s, circle, i + 1);
      hide Chain;
      nodes := Without(nodes, i);
      assert Numbers() == Without(old(Numbers()), i);
    }

    // Take the i-th node out of a circle.
    static method Unlink(s: SnapshotImpl, ghost circle: seq<SnapshotImpl>, ghost i: nat)
      requires 0 < i < |circle| - 1 && circle[i] == s && Chain(circle)
      requires forall j, k :: 0 <= j < k < |circle| && circle[j] == circle[k] ==> j == 0 && k == |circle| - 1
      modifies circle
      ensures Chain(Without(circle, i))
    {
      assert Linked(circle[i - 1], circle[i]) && Linked(circle[i], circle[i + 1]);
      s.prev.next := s.next;
      s.next.prev := s.prev;
      WithoutAt(circle, i);
      hide Without;
      forall j | 0 <= j < |circle| - 2
        ensures Linked(Without(circle, i)[j], Without(circle, i)[j + 1])
      {
        var k := if j < i then j else j + 1;
        assert old(Linked(circle[k], circle[k + 1]));
      }
    }

    // The start of DoCompactionWork: what no reader asks below of.
    method SmallestSnapshot(lastSequence: nat) returns (n: nat)
      requires Valid()
      ensures n == Smallest(Numbers(), lastSequence)
    {
      if Empty() {
        n := lastSequence;
      } else {
        n := Oldest().number;
      }
    }
  }

  // ----- Runs -----

  function Smallest(ns: seq<nat>, last: nat): nat {
    if ns == [] then last else ns[0]
  }

  // Snapshots are taken at the last sequence number of the moment, and any live
  // one may be released.
  datatype Event = Take(number: nat) | Release(i: nat)

  function After(ns: seq<nat>, events: seq<Event>): seq<nat>
    decreases |events|
  {
    if events == [] then ns
    else
      After(match events[0]
            case Take(n) => ns + [n]
            case Release(i) => if i < |ns| then Without(ns, i) else ns,
            events[1..])
  }

  // The sequence numbers taken never go down, and start no lower than last.
  predicate Rising(events: seq<Event>, last: nat)
    decreases |events|
  {
    events == []
    || match events[0]
       case Take(n) => n >= last && Rising(events[1..], n)
       case Release(_) => Rising(events[1..], last)
  }

  // Whatever is taken and released later, the numbers stay in order and none is
  // below the smallest of now.
  lemma {:induction false} SmallestBoundsTheFuture(ns: seq<nat>, events: seq<Event>, last: nat)
    requires Ascending(ns) && (forall n :: n in ns ==> n <= last) && Rising(events, last)
    ensures Ascending(After(ns, events))
    ensures forall n :: n in After(ns, events) ==> Smallest(ns, last) <= n
    decreases |events|
  {
    if events == [] {
    } else {
      match events[0]
      case Take(n) =>
        AscendingAdd(ns, n);
        SmallestBoundsTheFuture(ns + [n], events[1..], n);
      case Release(i) =>
        var next := if i < |ns| then Without(ns, i) else ns;
        if i < |ns| { AscendingWithout(ns, i); }
        assert forall m :: m in next ==> m in ns;
        assert ns != [] ==> ns[0] in ns;
        SmallestBoundsTheFuture(next, events[1..], last);
    }
  }
}
