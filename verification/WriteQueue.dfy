// The queue of writers: the one at the head writes for a group of those behind
// it, hands its status to them and wakes the next head.
module WriteQueues {
  import opened Basics
  import opened Entries
  import opened Sequences
  import opened Store
  import opened WriteBatches

  datatype Status = Ok | Failed(code: nat)

  // What a writer asks for; no operations at all stand for the null batch of a
  // caller who only wants the memtable switched.
  datatype Request = Request(ops: Option<seq<Write>>, sync: bool)

  // ----- Sizes -----

  function TotalSize(q: seq<Request>): nat {
    if q == [] then 0
    else TotalSize(q[..|q| - 1]) + if q[|q| - 1].ops.Some? then ByteSize(q[|q| - 1].ops.value) else 0
  }

  // A group may grow to a megabyte, but only by 128 kilobytes behind a small write.
  function MaxSize(first: nat): nat {
    if first <= 0x20000 then first + 0x20000 else 0x100000
  }

  // ----- Groups -----

  // The writer at place i goes along with the head of the queue, given that all
  // before it do.
  predicate Joins(q: seq<Request>, i: nat)
    requires 0 < i < |q| && q[0].ops.Some?
  {
    && (q[i].sync ==> q[0].sync)
    && (q[i].ops.Some? ==> TotalSize(q[..i + 1]) <= MaxSize(ByteSize(q[0].ops.value)))
  }

  // The first n writers make up the group: as many in a row as may join.
  predicate IsGroup(q: seq<Request>, n: nat)
    requires q != [] && q[0].ops.Some?
  {
    && 1 <= n <= |q|
    && (forall i :: 1 <= i < n ==> Joins(q, i))
    && (n < |q| ==> !Joins(q, n))
  }

  function GroupOps(q: seq<Request>): seq<Write> {
    if q == [] then []
    else GroupOps(q[..|q| - 1]) + if q[|q| - 1].ops.Some? then q[|q| - 1].ops.value else []
  }

  // The writers that leave with the head: its group, when there is room and
  // something to write.
  ghost predicate Leaves(q: seq<Request>, room: Status, n: nat)
    requires q != []
  {
    if room.Ok? && q[0].ops.Some? then IsGroup(q, n) else n == 1
  }

  // A numbered group, and how logging and inserting it went.
  datatype GroupWrite = GroupWrite(batch: Batch, status: Status)

  // ----- The queue as a value -----

  datatype Outcome = Outcome(request: Request, status: Status)

  // The queue as a value: who waits, and all that has happened so far.
  datatype Queue = Queue(waiting: seq<Request>, last: nat, groups: seq<GroupWrite>, served: seq<Outcome>)

  datatype Event =
    | Arrive(request: Request)
    | Write(room: Status, written: Status, arrivals: seq<Request>, n: nat)

  ghost predicate Possible(q: Queue, e: Event) {
    e.Write? ==> q.waiting != [] && 1 <= e.n <= |q.waiting| && Leaves(q.waiting, e.room, e.n)
  }

  function Answers(q: seq<Request>, status: Status): seq<Outcome> {
    seq(|q|, i requires 0 <= i < |q| => Outcome(q[i], status))
  }

  // A writer at the head is done with its group; arrivals queued up meanwhile.
  ghost function After(q: Queue, e: Event): Queue
    requires Possible(q, e)
  {
    match e
    case Arrive(r) => q.(waiting := q.waiting + [r])
    case Write(room, written, arrivals, n) =>
      var writes := room.Ok? && q.waiting[0].ops.Some?;
      var status := if writes then written else room;
      var ops := if writes then GroupOps(q.waiting[..n]) else [];
      Queue(q.waiting[n..] + arrivals, q.last + |ops|,
            q.groups + if writes then [GroupWrite(Batch(q.last + 1, ops), written)] else [],
            q.served + Answers(q.waiting[..n], status))
  }

  // ----- The queue -----

  class Writer {
    const request: Request
    var done: bool
    var status: Status
    var signalled: bool

    constructor (request: Request)
      ensures this.request == request && !done && !signalled
    {
      this.request, done, status, signalled := request, false, Ok, false;
    }
  }

  function Requests(ws: seq<Writer>): (q: seq<Request>)
    ensures |q| == |ws| && forall i :: 0 <= i < |ws| ==> q[i] == ws[i].request
  {
    seq(|ws|, i requires 0 <= i < |ws| => ws[i].request)
  }

  ghost predicate AllDifferent(ws: seq<Writer>) {
    forall i, j :: 0 <= i < j < |ws| ==> ws[i] != ws[j]
  }

  class WriteQueue {
    var writers: seq<Writer>
    var lastSequence: nat
    ghost var groups: seq<GroupWrite>
    ghost var served: seq<Outcome>

    ghost function AsQueue(): Queue
      reads this
    {
      Queue(Requests(writers), lastSequence, groups, served)
    }

    // Those who wait have no answer yet.
    ghost predicate Valid()
      reads this, writers
    {
      AllDifferent(writers) && forall w :: w in writers ==> !w.done
    }

    constructor (lastSequence: nat)
      ensures Valid() && writers == [] && this.lastSequence == lastSequence && groups == [] && served == []
    {
      writers, this.lastSequence, groups, served := [], lastSequence, [], [];
    }

    method Enqueue(w: Writer)
      requires Valid() && w !in writers && !w.done
      modifies this`writers
      ensures Valid() && writers == old(writers) + [w]
      ensures AsQueue() == After(old(AsQueue()), Event.Arrive(w.request))
    {
      writers := writers + [w];
    }

    // The operations to write, and the place of the last writer of the group.
    method BuildBatchGroup() returns (updates: seq<Write>, last: nat)
      requires writers != [] && writers[0].request.ops.Some?
      ensures last < |writers| && IsGroup(Requests(writers), last + 1)
      ensures updates == GroupOps(Requests(writers)[..last + 1])
    {
      hide ByteSize;
      hide GroupOps;
      hide TotalSize;
      ghost var q := Requests(writers);
      var first := writers[0].request;
      updates := first.ops.value;
      var size := ByteSize(first.ops.value);
      var maxSize := 0x100000;
      if size <= 0x20000 {
        maxSize := size + 0x20000;
      }
      last := 0;
      var i := 1;
      FirstOfGroup(q);
      while i < |writers|
        invariant 1 <= i <= |writers| && last == i - 1
        invariant forall j :: 1 <= j < i ==> Joins(q, j)
        invariant updates == GroupOps(q[..i]) && size == TotalSize(q[..i])
      {
        var w := writers[i].request;
        OneMore(q, i);
        if w.sync && !first.sync { break; }
        if w.ops.Some? {
          size := size + ByteSize(w.ops.value);
          if size > maxSize { break; }
          updates := updates + w.ops.value;
        }
        last := i;
        i := i + 1;
      }
    }

    // Number, log and insert the operations of the head's group; the mutex is
    // released in between, and arrivals queue up.
    method WriteGroup(room: Status, written: Status, arrivals: seq<Writer>)
      returns (status: Status, last: Writer, ghost n: nat)
      requires writers != []
      modifies this
      ensures 1 <= n <= |old(writers)| && last == old(writers)[n - 1]
      ensures Possible(old(AsQueue()), Event.Write(room, written, Requests(arrivals), n))
      ensures status == if room.Ok? && old(writers)[0].request.ops.Some? then written else room
      ensures writers == old(writers) + arrivals && served == old(served)
      ensures var ops := if room.Ok? && old(writers)[0].request.ops.Some? then GroupOps(Requests(old(writers))[..n])
                         else [];
              && lastSequence == old(lastSequence) + |ops|
              && groups == old(groups)
                         + if room.Ok? && old(writers)[0].request.ops.Some?
                           then [GroupWrite(Batch(old(lastSequence) + 1, ops), written)] else []
    {
      hide IsGroup;
      hide GroupOps;
      status, last, n := room, writers[0], 1;
      if status.Ok? && writers[0].request.ops.Some? {
        var updates, place := BuildBatchGroup();
        last, n := writers[place], place + 1;
        var sequence := lastSequence + 1;
        Arrive(arrivals);
        status := written;
        groups := groups + [GroupWrite(Batch(sequence, updates), status)];
        lastSequence := sequence - 1 + |updates|;
      } else {
        Arrive(arrivals);
      }
    }

    // Write, for the writer w at the head of the queue; room is what
    // MakeRoomForWrite answers, written what logging and inserting come to, and
    // arrivals are the writers who queue up while the mutex is released.
    method Write(w: Writer, room: Status, written: Status, arrivals: seq<Writer>) returns (status: Status, ghost n: nat)
      requires Valid() && writers != [] && w == writers[0]
      requires AllDifferent(writers + arrivals) && forall a :: a in arrivals ==> !a.done
      modifies this, writers, arrivals
      ensures Valid() && Possible(old(AsQueue()), Event.Write(room, written, Requests(arrivals), n))
      ensures AsQueue() == After(old(AsQueue()), Event.Write(room, written, Requests(arrivals), n))
      // The group leaves together, each with the head's status.
      ensures writers == old(writers)[n..] + arrivals
      ensures status == if room.Ok? && w.request.ops.Some? then written else room
      ensures forall i :: 1 <= i < n
                ==> old(writers)[i].done && old(writers)[i].signalled && old(writers)[i].status == status
      // The others wait on, and the new head knows.
      ensures forall v :: v in writers ==> v.status == old(v.status)
      ensures writers != [] ==> writers[0].signalled
    {
      hide Leaves;
      hide GroupOps;
      hide AllDifferent;
      hide After;
      hide Possible;
      hide Requests;
      var last;
      status, last, n := Serve(room, written, arrivals);
      DropOfSum(old(writers), arrivals, n);
      assert forall i :: 0 <= i < n ==> writers[i] == old(writers)[i];
      Dismiss(w, last, status, n);
      NotifyHead();
    }

    // The group is written and answered; its writers are still in the queue.
    method Serve(room: Status, written: Status, arrivals: seq<Writer>)
      returns (status: Status, last: Writer, ghost n: nat)
      requires writers != []
      modifies this
      ensures 1 <= n <= |old(writers)| && last == old(writers)[n - 1] && writers == old(writers) + arrivals
      ensures status == if room.Ok? && old(writers)[0].request.ops.Some? then written else room
      ensures Possible(old(AsQueue()), Event.Write(room, written, Requests(arrivals), n))
      ensures Queue(Requests(old(writers)[n..] + arrivals), lastSequence, groups, served)
           == After(old(AsQueue()), Event.Write(room, written, Requests(arrivals), n))
    {
      hide Leaves;
      hide GroupOps;
      status, last, n := WriteGroup(room, written, arrivals);
      RequestsOfParts(old(writers), arrivals, n);
      hide Requests;
      served := served + Answers(Requests(old(writers))[..n], status);
    }

    method NotifyHead()
      requires Valid()
      modifies writers
      ensures Valid() && (writers != [] ==> writers[0].signalled)
      ensures forall v :: v in writers ==> v.done == old(v.done) && v.status == old(v.status)
    {
      if writers != [] {
        writers[0].signalled := true;
      }
    }

    method Arrive(arrivals: seq<Writer>)
      modifies this`writers
      ensures writers == old(writers) + arrivals
    {
      for i := 0 to |arrivals|
        invariant writers == old(writers) + arrivals[..i]
      {
        writers := writers + [arrivals[i]];
        assert arrivals[..i + 1] == arrivals[..i] + [arrivals[i]];
      }
      assert arrivals[..|arrivals|] == arrivals;
    }

    // Pop the group off the queue, telling each but the head how it went.
    method Dismiss(w: Writer, last: Writer, status: Status, ghost n: nat)
      requires Valid() && 1 <= n <= |writers| && w == writers[0] && last == writers[n - 1]
      modifies this`writers, writers
      ensures Valid() && writers == old(writers)[n..]
      ensures forall i :: 1 <= i < n
                ==> old(writers)[i].done && old(writers)[i].signalled && old(writers)[i].status == status
      ensures forall v :: v in writers ==> v.status == old(v.status) && v.signalled == old(v.signalled)
    {
      ghost var all := writers;
      ghost var i := 0;
      while true
        invariant 0 <= i < n && writers == all[i..]
        invariant forall j :: 1 <= j < i ==> all[j].done && all[j].signalled && all[j].status == status
        invariant forall j :: i <= j < |all|
                    ==> !all[j].done && all[j].status == old(all[j].status) && all[j].signalled == old(all[j].signalled)
        decreases n - i
      {
        var ready := writers[0];
        writers := writers[1..];
        if ready != w {
          ready.status := status;
          ready.done := true;
          ready.signalled := true;
        }
        i := i + 1;
        if ready == last { break; }
      }
    }
  }

  lemma RequestsOfParts(ws: seq<Writer>, more: seq<Writer>, n: nat)
    requires n <= |ws|
    ensures Requests(ws[n..] + more) == Requests(ws)[n..] + Requests(more)
  {
  }

  lemma FirstOfGroup(q: seq<Request>)
    requires q != [] && q[0].ops.Some?
    ensures GroupOps(q[..1]) == q[0].ops.value && TotalSize(q[..1]) == ByteSize(q[0].ops.value)
  {
    assert q[..1][..0] == [];
  }

  lemma OneMore(q: seq<Request>, i: nat)
    requires i < |q|
    ensures GroupOps(q[..i + 1]) == GroupOps(q[..i]) + if q[i].ops.Some? then q[i].ops.value else []
    ensures TotalSize(q[..i + 1]) == TotalSize(q[..i]) + if q[i].ops.Some? then ByteSize(q[i].ops.value) else 0
  {
    assert q[..i + 1][..i] == q[..i];
  }

  // ----- Runs -----

  ghost predicate Reaches(q: Queue, events: seq<Event>, t: Queue)
    decreases |events|
  {
    if events == [] then q == t
    else Possible(q, events[0]) && Reaches(After(q, events[0]), events[1..], t)
  }

  function Arrivals(events: seq<Event>): seq<Request> {
    if events == [] then []
    else (match events[0]
          case Arrive(r) => [r]
          case Write(_, _, arrivals, _) => arrivals) + Arrivals(events[1..])
  }

  function Asked(served: seq<Outcome>): seq<Request> {
    seq(|served|, i requires 0 <= i < |served| => served[i].request)
  }

  // The operations of the writers told that all went well.
  function Promised(served: seq<Outcome>): seq<Write> {
    if served == [] then []
    else
      var o := served[|served| - 1];
      Promised(served[..|served| - 1]) + Kept(o)
  }

  // The operations of the groups that went well.
  function Applied(groups: seq<GroupWrite>): seq<Write> {
    if groups == [] then []
    else
      var g := groups[|groups| - 1];
      Applied(groups[..|groups| - 1]) + if g.status.Ok? then g.batch.ops else []
  }

  // The groups' sequence numbers follow each other without gap or overlap.
  ghost predicate Contiguous(groups: seq<GroupWrite>, first: nat, last: nat) {
    && (forall i :: 0 <= i < |groups|
          ==> groups[i].batch.sequence == 1 + if i == 0 then first else Last(groups[i - 1].batch))
    && last == if groups == [] then first else Last(groups[|groups| - 1].batch)
  }

  ghost predicate Fair(q: Queue, first: nat, arrived: seq<Request>) {
    && Asked(q.served) + q.waiting == arrived
    && Applied(q.groups) == Promised(q.served)
    && Contiguous(q.groups, first, q.last)
  }

  function Kept(o: Outcome): seq<Write> {
    if o.status.Ok? && o.request.ops.Some? then o.request.ops.value else []
  }

  lemma PromisedOneMore(served: seq<Outcome>, o: Outcome)
    ensures Promised(served + [o]) == Promised(served) + Kept(o)
  {
    assert (served + [o])[..|served|] == served;
  }

  lemma AnswersOneMore(served: seq<Outcome>, q: seq<Request>, status: Status)
    requires q != []
    ensures served + Answers(q, status) == served + Answers(q[..|q| - 1], status) + [Outcome(q[|q| - 1], status)]
  {
  }

  lemma {:induction false} PromisedAnswers(served: seq<Outcome>, q: seq<Request>, status: Status)
    ensures Promised(served + Answers(q, status)) == Promised(served) + if status.Ok? then GroupOps(q) else []
  {
    hide Promised;
    if q == [] {
      assert served + Answers(q, status) == served;
    } else {
      var rest, o := q[..|q| - 1], Outcome(q[|q| - 1], status);
      PromisedAnswers(served, rest, status);
      AnswersOneMore(served, q, status);
      PromisedOneMore(served + Answers(rest, status), o);
      Associate(Promised(served), GroupOps(rest), Kept(o));
    }
  }

  lemma StepAnswersInOrder(q: Queue, e: Event)
    requires Possible(q, e)
    ensures Asked(After(q, e).served) + After(q, e).waiting == Asked(q.served) + q.waiting + Arrivals([e])
  {
    hide Leaves;
    hide GroupOps;
    var t := After(q, e);
    assert Arrivals([e]) == match e case Arrive(r) => [r] case Write(_, _, a, _) => a;
    if e.Write? {
      var group := q.waiting[..e.n];
      assert q.waiting == group + q.waiting[e.n..];
      assert Asked(t.served) == Asked(q.served) + group;
    }
  }

  lemma StepApplies(q: Queue, e: Event)
    requires Possible(q, e) && Applied(q.groups) == Promised(q.served)
    ensures Applied(After(q, e).groups) == Promised(After(q, e).served)
  {
    hide IsGroup;
    hide Answers;
    var t := After(q, e);
    if e.Write? {
      var group := q.waiting[..e.n];
      if e.room.Ok? && q.waiting[0].ops.Some? {
        PromisedAnswers(q.served, group, e.written);
        assert t.groups[..|q.groups|] == q.groups;
      } else {
        PromisedAnswers(q.served, group, e.room);
        assert group == [q.waiting[0]] && group[..0] == [];
        NothingAppended(q.groups);
        assert t.groups == q.groups;
      }
    }
  }

  lemma ContiguousAppend(groups: seq<GroupWrite>, g: GroupWrite, first: nat, last: nat)
    requires Contiguous(groups, first, last) && g.batch.sequence == last + 1
    ensures Contiguous(groups + [g], first, Last(g.batch))
  {
  }

  lemma StepNumbers(q: Queue, e: Event, first: nat)
    requires Possible(q, e) && Contiguous(q.groups, first, q.last)
    ensures Contiguous(After(q, e).groups, first, After(q, e).last)
  {
    hide Leaves;
    hide GroupOps;
    hide Answers;
    hide Contiguous;
    NothingAppended(q.groups);
    if e.Write? && e.room.Ok? && q.waiting[0].ops.Some? {
      ContiguousAppend(q.groups, GroupWrite(Batch(q.last + 1, GroupOps(q.waiting[..e.n])), e.written), first, q.last);
    }
  }

  lemma StepIsFair(q: Queue, e: Event, first: nat, arrived: seq<Request>)
    requires Fair(q, first, arrived) && Possible(q, e)
    ensures Fair(After(q, e), first, arrived + Arrivals([e]))
  {
    hide Possible;
    hide After;
    StepAnswersInOrder(q, e);
    StepApplies(q, e);
    StepNumbers(q, e, first);
  }

  // Over any run: writers are answered in the order they came, each once; those
  // told that all went well had just their operations applied, in that order; and
  // the groups' sequence numbers are contiguous.
  lemma {:induction false} RunsAreFair(q: Queue, events: seq<Event>, t: Queue, first: nat, arrived: seq<Request>)
    requires Fair(q, first, arrived) && Reaches(q, events, t)
    ensures Fair(t, first, arrived + Arrivals(events))
    decreases |events|
  {
    hide Fair;
    hide After;
    hide Possible;
    if events == [] {
      NothingAppended(arrived);
    } else {
      StepIsFair(q, events[0], first, arrived);
      RunsAreFair(After(q, events[0]), events[1..], t, first, arrived + Arrivals([events[0]]));
      assert Arrivals(events) == Arrivals([events[0]]) + Arrivals(events[1..]) by {
        NothingAppended(Arrivals([events[0]]));
      }
      Associate(arrived, Arrivals([events[0]]), Arrivals(events[1..]));
    }
  }

  // A sync write never rides along with a head that does not sync.
  lemma SyncIsNeverWeakened(q: seq<Request>, room: Status, n: nat, i: nat)
    requires q != [] && Leaves(q, room, n) && 0 < i < n <= |q| && q[i].sync
    ensures q[0].sync
  {
    assert Joins(q, i);
  }

  // ----- How large a group gets -----

  // How many of the requests have a batch.
  function BatchesIn(q: seq<Request>): nat {
    if q == [] then 0 else BatchesIn(q[..|q| - 1]) + if q[|q| - 1].ops.Some? then 1 else 0
  }

  lemma SizeOfBoth(a: seq<Write>, b: seq<Write>)
    ensures ByteSize(a + b) + 12 == ByteSize(a) + ByteSize(b)
  {
    RecordsOfBoth(a, b);
    hide Records;
  }

  // The sizes added up are the bytes of the group and the headers it saves.
  lemma {:induction false} TotalIsBytes(q: seq<Request>)
    ensures TotalSize(q) + 12 == ByteSize(GroupOps(q)) + 12 * BatchesIn(q)
  {
    if q == [] {
      assert ByteSize([]) == 12;
    } else {
      var before, last := q[..|q| - 1], q[|q| - 1];
      TotalIsBytes(before);
      hide ByteSize;
      if last.ops.Some? { SizeOfBoth(GroupOps(before), last.ops.value); } else { NothingAppended(GroupOps(before)); }
    }
  }

  lemma {:induction false} TotalIsLimited(q: seq<Request>, n: nat)
    requires q != [] && q[0].ops.Some? && 1 <= n <= |q| && forall i :: 1 <= i < n ==> Joins(q, i)
    ensures BatchesIn(q[..n]) >= 1
    ensures BatchesIn(q[..n]) > 1 ==> TotalSize(q[..n]) <= MaxSize(ByteSize(q[0].ops.value))
  {
    assert q[..n][..n - 1] == q[..n - 1] && q[..n][n - 1] == q[n - 1];
    if n == 1 {
      assert q[..1][..0] == [];
    } else {
      TotalIsLimited(q, n - 1);
      assert Joins(q, n - 1);
      OneMore(q, n - 1);
    }
  }

  // More than one batch together take a megabyte at most, and next to a small head no
  // more than 128 kilobytes on top of it; the next writer would go over that, or syncs.
  lemma GroupIsBounded(q: seq<Request>, n: nat)
    requires q != [] && q[0].ops.Some? && IsGroup(q, n)
    ensures var head, batches := |BatchBytes(0, q[0].ops.value)|, BatchesIn(q[..n]);
      var total := |BatchBytes(0, GroupOps(q[..n]))| + 12 * (batches - 1);
      && (batches > 1 ==> total <= 1048576 && (head <= 131072 ==> total <= head + 131072))
      && (n < |q| ==>
            || (q[n].sync && !q[0].sync)
            || (q[n].ops.Some?
                && total + |BatchBytes(0, q[n].ops.value)| > if head <= 131072 then head + 131072 else 1048576))
  {
    TotalIsLimited(q, n);
    TotalIsBytes(q[..n]);
    if n < |q| { OneMore(q, n); }
    hide TotalSize;
    hide BatchBytes;
    hide GroupOps;
    hide BatchesIn;
  }
}
