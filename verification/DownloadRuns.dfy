// Runs of the download scheduler: its blocks as steps on values, what every run
// keeps, and exactly when more downloads can be under way than allowed.
module DownloadRuns {
  import opened Basics
  import opened ImageDownloaders

  // ----- Steps -----

  datatype State = State(
    maximum: nat,
    fifo: bool,
    active: nat,
    queue: seq<nat>,
    handlers: Handlers,
    requests: Requests,
    nextRequest: nat,
    nextOperation: nat,
    fired: seq<Fired>)

  datatype Event =
    | Download(url: string, receiptID: string, filter: Option<Filter>, cached: Option<Image>)
    | Cancel(r: nat, receiptID: string)
    | Fetch(r: nat)
    | Remove(r: nat, result: Response)
    | Decrement(r: nat)
    | StartNext(r: nat)

  predicate Possible(requests: Requests, e: Event) {
    match e
    case Download(_, _, _, _) => true
    case Cancel(r, _) => r in requests
    case Fetch(r) =>
      r in requests && requests[r].phase.Idle? && (requests[r].task.Running? || requests[r].task.Cancelled?)
    case Remove(r, _) => r in requests && requests[r].phase.Matched?
    case Decrement(r) => r in requests && requests[r].phase.ToDecrement?
    case StartNext(r) => r in requests && requests[r].phase.ToStartNext?
  }

  function AfterDownload(s: State, url: string, o: Operation, cached: Option<Image>): State {
    if url in s.handlers then
      var h := s.handlers[url];
      s.(handlers := s.handlers[url := h.(operations := h.operations + [o])], nextOperation := s.nextOperation + 1)
    else if cached.Some? then
      s.(fired := s.fired + [Fired(o.id, Success(cached.value))], nextOperation := s.nextOperation + 1)
    else
      var r := s.nextRequest;
      var t := s.(handlers := s.handlers[url := ResponseHandler(r, r, [o])], nextRequest := r + 1,
                  nextOperation := s.nextOperation + 1);
      if s.active < s.maximum then
        t.(requests := s.requests[r := Request(url, r, Running, true, Idle)], active := s.active + 1)
      else
        t.(requests := s.requests[r := Request(url, r, Suspended, false, Idle)],
           queue := if s.fifo then s.queue + [r] else [r] + s.queue)
  }

  // What is left to a handler when the first operation with the receipt is gone.
  function Left(ops: seq<Operation>, receiptID: string): seq<Operation> {
    var i := FirstWith(ops, receiptID);
    if i < |ops| then Without(ops, i) else ops
  }

  // A cancellation drops a request that nobody asks for any more and that has not
  // been started.
  predicate Drops(s: State, e: Event) {
    && e.Cancel? && e.r in s.requests && s.requests[e.r].url in s.handlers
    && Left(s.handlers[s.requests[e.r].url].operations, e.receiptID) == [] && s.requests[e.r].task.Suspended?
  }

  function AfterCancel(s: State, r: nat, receiptID: string): State
    requires r in s.requests
  {
    var u := s.requests[r].url;
    if u !in s.handlers then s
    else
      var h := s.handlers[u];
      var i := FirstWith(h.operations, receiptID);
      var t := if i < |h.operations| then s.(fired := s.fired + [Fired(h.operations[i].id, CancelledResponse)]) else s;
      if Drops(s, Cancel(r, receiptID)) then
        t.(handlers := s.handlers - {u}, requests := s.requests[r := s.requests[r].(task := Cancelled)])
      else t.(handlers := s.handlers[u := h.(operations := Left(h.operations, receiptID))])
  }

  function AfterFetch(s: State, r: nat): State
    requires r in s.requests
  {
    var q := s.requests[r];
    var matched := q.url in s.handlers && s.handlers[q.url].handlerID == q.handlerID;
    s.(requests := s.requests[r := q.(task := if q.task.Running? then Completed else Cancelled,
                                      phase := if matched then Matched else ToDecrement)])
  }

  function AfterRemove(s: State, r: nat, result: Response): State
    requires r in s.requests
  {
    var q := s.requests[r];
    if q.url !in s.handlers then s.(requests := s.requests[r := q.(phase := ToDecrement)])
    else
      s.(requests := s.requests[r := q.(phase := ToDecrement)], handlers := s.handlers - {q.url},
         fired := s.fired + Answers(s.handlers[q.url].operations, result))
  }

  function AfterStartNext(s: State, r: nat): State
    requires r in s.requests
  {
    var t := s.(requests := s.requests[r := s.requests[r].(phase := Done)]);
    var i := FirstStartable(s.requests, s.queue);
    if s.active >= s.maximum then t
    else if i == |s.queue| then t.(queue := [])
    else
      var next := s.queue[i];
      if next !in t.requests then t
      else t.(requests := t.requests[next := t.requests[next].(task := Running, started := true)],
              active := s.active + 1, queue := s.queue[i + 1..])
  }

  function After(s: State, e: Event): State
    requires Possible(s.requests, e)
  {
    match e
    case Download(url, receiptID, filter, cached) =>
      AfterDownload(s, url, Operation(s.nextOperation, receiptID, filter), cached)
    case Cancel(r, receiptID) => AfterCancel(s, r, receiptID)
    case Fetch(r) => AfterFetch(s, r)
    case Remove(r, result) => AfterRemove(s, r, result)
    case Decrement(r) =>
      s.(requests := s.requests[r := s.requests[r].(phase := ToStartNext)],
         active := if s.active > 0 then s.active - 1 else 0)
    case StartNext(r) => AfterStartNext(s, r)
  }

  // ----- The downloader takes these steps -----

  ghost function Now(d: ImageDownloader): State
    reads d
  {
    State(d.maximumActiveDownloads, d.fifo, d.activeRequestCount, d.queuedRequests, d.responseHandlers, d.requests,
          d.nextRequest, d.nextOperation, d.fired)
  }

  method Perform(d: ImageDownloader, e: Event)
    requires d.Valid() && Possible(d.requests, e)
    modifies d
    ensures d.Valid() && Now(d) == After(old(Now(d)), e)
  {
    hide HandlersOk;
    hide QueueOk;
    hide OperationsOk;
    hide CountsOk;
    hide Started;
    hide Without;
    hide FirstWith;
    hide FirstStartable;
    match e
    case Download(url, receiptID, filter, cached) => var request := d.Download(url, receiptID, filter, cached);
    case Cancel(r, receiptID) => d.CancelRequest(r, receiptID);
    case Fetch(r) =>
      FetchMatches(d.requests, d.responseHandlers, r);
      var matched := d.FetchResponseHandler(r);
    case Remove(r, result) => d.RemoveResponseHandler(r, result);
    case Decrement(r) => d.DecrementActiveRequestCount(r);
    case StartNext(r) => d.StartNextRequestIfNecessary(r);
  }

  // Only a cancelled request finds that no handler is its own.
  lemma FetchMatches(requests: Requests, handlers: Handlers, r: nat)
    requires HandlersOk(requests, handlers) && Possible(requests, Fetch(r))
    ensures var q := requests[r];
      q.task.Running? <==> q.url in handlers && handlers[q.url].handlerID == q.handlerID
  {
    TaskOf(requests, handlers, r);
  }

  // ----- What every step keeps -----

  ghost predicate Ok(s: State) {
    && HandlersOk(s.requests, s.handlers)
    && QueueOk(s.requests, s.queue)
    && OperationsOk(s.handlers, s.fired, s.nextOperation)
    && CountsOk(s.requests, s.active, s.maximum)
    && forall r :: r in s.requests ==> r < s.nextRequest
  }

  // By how much a step makes the active count fall behind the downloads under way.
  function Gain(s: State, e: Event): int
    requires Possible(s.requests, e)
  {
    if !e.Decrement? then 0
    else (if s.active > 0 then 1 else 0) - (if s.requests[e.r].started then 1 else 0)
  }

  function Lag(s: State): int {
    Surplus(s.requests, s.active)
  }

  lemma DownloadKeeps(s: State, url: string, o: Operation, cached: Option<Image>)
    requires Ok(s) && o.id == s.nextOperation
    ensures Ok(AfterDownload(s, url, o, cached)) && Lag(AfterDownload(s, url, o, cached)) == Lag(s)
  {
    hide HandlersOk;
    hide QueueOk;
    hide OperationsOk;
    hide CountsOk;
    hide Surplus;
    if url in s.handlers {
      var h := s.handlers[url];
      var appended := h.(operations := h.operations + [o]);
      OneMoreOperation(s.handlers, s.fired, s.nextOperation, url, appended, o);
      SameHandler(s.requests, s.handlers, url, appended);
    } else if cached.Some? {
      OperationServed(s.handlers, s.fired, s.nextOperation, Fired(o.id, Success(cached.value)));
    } else {
      var r := s.nextRequest;
      var h := ResponseHandler(r, r, [o]);
      var q := if s.active < s.maximum then Request(url, r, Running, true, Idle)
               else Request(url, r, Suspended, false, Idle);
      OneMoreOperation(s.handlers, s.fired, s.nextOperation, url, h, o);
      NewRequest(s.requests, s.handlers, url, r, q, h);
      QueueWith(s.requests, s.queue, r, q);
      CountsWith(s.requests, s.active, s.maximum, r, q);
    }
  }

  lemma CancelKeeps(s: State, r: nat, receiptID: string)
    requires Ok(s) && r in s.requests
    ensures Ok(AfterCancel(s, r, receiptID)) && Lag(AfterCancel(s, r, receiptID)) == Lag(s)
  {
    hide HandlersOk;
    hide QueueOk;
    hide OperationsOk;
    hide CountsOk;
    var u := s.requests[r].url;
    if u in s.handlers {
      var h := s.handlers[u];
      var i := FirstWith(h.operations, receiptID);
      var left := h.(operations := Left(h.operations, receiptID));
      var handlers := s.handlers[u := left];
      var fired := if i < |h.operations| then s.fired + [Fired(h.operations[i].id, CancelledResponse)] else s.fired;
      if i < |h.operations| {
        OperationCancelled(s.handlers, s.fired, s.nextOperation, u, i, left);
      } else {
        assert handlers == s.handlers;
      }
      SameHandler(s.requests, s.handlers, u, left);
      if Drops(s, Cancel(r, receiptID)) {
        var cancelled := s.requests[r].(task := Cancelled);
        TaskOf(s.requests, handlers, r);
        HandlerGone(s.requests, handlers, r, cancelled);
        NothingToAnswer(handlers, fired, s.nextOperation, u);
        CountsStay(s.requests, s.active, s.maximum, r, cancelled);
        QueueStays(s.requests, s.queue, r, cancelled);
        assert handlers - {u} == s.handlers - {u};
      }
    }
  }

  // Fetching its handler moves the request on and keeps the count.
  lemma FetchKeeps(s: State, r: nat)
    requires Ok(s) && Possible(s.requests, Fetch(r))
    ensures Ok(AfterFetch(s, r)) && Lag(AfterFetch(s, r)) == Lag(s)
    ensures AfterFetch(s, r).requests[r].phase.Matched? <==> s.requests[r].task.Running?
  {
    hide QueueOk;
    hide OperationsOk;
    hide CountsOk;
    TaskOf(s.requests, s.handlers, r);
    var q := AfterFetch(s, r).requests[r];
    assert q.phase.Matched? <==> s.requests[r].task.Running?;
    hide HandlersOk;
    RequestGoesOn(s.requests, s.handlers, r, q);
    CountsStay(s.requests, s.active, s.maximum, r, q);
    QueueStays(s.requests, s.queue, r, q);
  }

  // The handler removed is the request's own, whatever came in between.
  lemma RemoveKeeps(s: State, r: nat, result: Response)
    requires Ok(s) && Possible(s.requests, Remove(r, result))
    ensures s.requests[r].url in s.handlers && s.handlers[s.requests[r].url].request == r
    ensures Ok(AfterRemove(s, r, result)) && Lag(AfterRemove(s, r, result)) == Lag(s)
  {
    hide QueueOk;
    hide OperationsOk;
    hide CountsOk;
    TaskOf(s.requests, s.handlers, r);
    assert InPlace(s.requests, s.handlers, r);
    hide HandlersOk;
    var q := s.requests[r].(phase := ToDecrement);
    HandlerGone(s.requests, s.handlers, r, q);
    HandlerAnswered(s.handlers, s.fired, s.nextOperation, q.url, result);
    CountsStay(s.requests, s.active, s.maximum, r, q);
    QueueStays(s.requests, s.queue, r, q);
  }

  lemma DecrementKeeps(s: State, r: nat)
    requires Ok(s) && Possible(s.requests, Decrement(r))
    ensures Ok(After(s, Decrement(r))) && Lag(After(s, Decrement(r))) == Lag(s) + Gain(s, Decrement(r))
  {
    hide QueueOk;
    hide OperationsOk;
    hide CountsOk;
    hide HandlersOk;
    var q := s.requests[r].(phase := ToStartNext);
    TaskOf(s.requests, s.handlers, r);
    RequestGoesOn(s.requests, s.handlers, r, q);
    CountsDecremented(s.requests, s.active, s.maximum, r, q);
    QueueStays(s.requests, s.queue, r, q);
  }

  lemma StartNextKeeps(s: State, r: nat)
    requires Ok(s) && Possible(s.requests, StartNext(r))
    ensures Ok(AfterStartNext(s, r)) && Lag(AfterStartNext(s, r)) == Lag(s)
  {
    hide QueueOk;
    hide OperationsOk;
    hide CountsOk;
    hide HandlersOk;
    hide Surplus;
    hide FirstStartable;
    var q := s.requests[r].(phase := Done);
    var i := FirstStartable(s.requests, s.queue);
    TaskOf(s.requests, s.handlers, r);
    RequestGoesOn(s.requests, s.handlers, r, q);
    QueueStays(s.requests, s.queue, r, q);
    CountsDone(s.requests, s.active, s.maximum, r, q, s.queue);
    if s.active < s.maximum {
      if i == |s.queue| {
        NothingToStart(s.requests, s.queue, s.active, s.maximum, r, q);
      } else {
        assert s.queue[i] != r;
        StartFromQueue(s.requests, s.queue, s.handlers, s.active, s.maximum, r, q, i);
      }
    }
  }

  lemma StepKeeps(s: State, e: Event)
    requires Ok(s) && Possible(s.requests, e)
    ensures Ok(After(s, e)) && Lag(After(s, e)) == Lag(s) + Gain(s, e)
  {
    hide Ok;
    hide Lag;
    match e
    case Download(url, receiptID, filter, cached) =>
      DownloadKeeps(s, url, Operation(s.nextOperation, receiptID, filter), cached);
    case Cancel(r, receiptID) => CancelKeeps(s, r, receiptID);
    case Fetch(r) => FetchKeeps(s, r);
    case Remove(r, result) => RemoveKeeps(s, r, result);
    case Decrement(r) => DecrementKeeps(s, r);
    case StartNext(r) => StartNextKeeps(s, r);
  }

  // ----- Runs -----

  function Created(maximum: nat, fifo: bool): State {
    State(maximum, fifo, 0, [], map[], map[], 0, 0, [])
  }

  lemma CreatedOk(maximum: nat, fifo: bool)
    ensures Ok(Created(maximum, fifo)) && Lag(Created(maximum, fifo)) == 0
  {
    assert Started(map[]) == {};
  }

  ghost predicate Reaches(s: State, events: seq<Event>, t: State)
    decreases |events|
  {
    if events == [] then s == t
    else Possible(s.requests, events[0]) && Reaches(After(s, events[0]), events[1..], t)
  }

  function Gains(s: State, events: seq<Event>): int
    decreases |events|
  {
    if events == [] || !Possible(s.requests, events[0]) then 0
    else Gain(s, events[0]) + Gains(After(s, events[0]), events[1..])
  }

  // Over every run each operation is waiting once or fired once, handlers and
  // requests belong together, nothing startable is stranded, and the active count
  // lags behind by exactly what decrements gave away, less what they lost at zero.
  lemma {:induction false} RunKeeps(s: State, events: seq<Event>, t: State)
    requires Ok(s) && Reaches(s, events, t)
    ensures Ok(t) && Lag(t) == Lag(s) + Gains(s, events)
    decreases |events|
  {
    hide Ok;
    hide Lag;
    hide After;
    hide Gain;
    if events != [] {
      StepKeeps(s, events[0]);
      RunKeeps(After(s, events[0]), events[1..], t);
    }
  }

  // ----- What callers are told -----

  // The step answers an operation with this.
  ghost predicate Tells(s: State, e: Event, f: Fired) {
    match e
    case Download(url, _, _, cached) =>
      url !in s.handlers && cached.Some? && f == Fired(s.nextOperation, Success(cached.value))
    case Cancel(r, receiptID) =>
      && r in s.requests && s.requests[r].url in s.handlers && f.response == CancelledResponse
      && exists o :: o in s.handlers[s.requests[r].url].operations && o.id == f.id && o.receiptID == receiptID
    case Remove(r, result) =>
      && r in s.requests && s.requests[r].url in s.handlers
      && exists i: nat :: ToldOf(s.handlers[s.requests[r].url].operations, i, result, f)
    case Fetch(_) => false
    case Decrement(_) => false
    case StartNext(_) => false
  }

  // Nothing is taken back, and what is new is told by the step.
  lemma StepTells(s: State, e: Event)
    requires Possible(s.requests, e)
    ensures s.fired <= After(s, e).fired
    ensures forall f :: f in After(s, e).fired[|s.fired|..] ==> Tells(s, e, f)
  {
    if e.Remove? && s.requests[e.r].url in s.handlers {
      var ops := s.handlers[s.requests[e.r].url].operations;
      hide Answers;
      forall f | f in Answers(ops, e.result)
        ensures Tells(s, e, f)
      {
        var i: nat :| i < |ops| && Answers(ops, e.result)[i] == f;
        AnswersTell(ops, e.result, i);
      }
    } else if e.Cancel? && s.requests[e.r].url in s.handlers {
      var ops := s.handlers[s.requests[e.r].url].operations;
      var i := FirstWith(ops, e.receiptID);
      assert i < |ops| ==> ops[i] in ops;
    }
  }

  // The state in which the k-th step of a run is taken.
  ghost predicate TakenIn(s: State, events: seq<Event>, k: nat, m: State) {
    k < |events| && Reaches(s, events[..k], m)
  }

  lemma {:induction false} RunTells(s: State, events: seq<Event>, t: State)
    requires Reaches(s, events, t)
    ensures s.fired <= t.fired
    ensures forall f :: f in t.fired[|s.fired|..]
              ==> exists k: nat, m :: TakenIn(s, events, k, m) && Tells(m, events[k], f)
    decreases |events|
  {
    if events != [] {
      var e, next := events[0], After(s, events[0]);
      StepTells(s, e);
      RunTells(next, events[1..], t);
      hide After;
      hide Tells;
      forall f | f in t.fired[|s.fired|..]
        ensures exists k: nat, m :: TakenIn(s, events, k, m) && Tells(m, events[k], f)
      {
        if f in next.fired[|s.fired|..] {
          assert TakenIn(s, events, 0, s);
        } else {
          assert f in t.fired[|next.fired|..] by {
            assert t.fired[|s.fired|..] == next.fired[|s.fired|..] + t.fired[|next.fired|..];
          }
          var k: nat, m :| TakenIn(next, events[1..], k, m) && Tells(m, events[1..][k], f);
          assert events[..k + 1][1..] == events[1..][..k];
          assert TakenIn(s, events, k + 1, m);
        }
      }
    }
  }

  lemma {:induction false} RunSplits(s: State, events: seq<Event>, t: State, k: nat) returns (m: State)
    requires Reaches(s, events, t) && k < |events|
    ensures TakenIn(s, events, k, m) && Possible(m.requests, events[k])
    ensures Reaches(After(m, events[k]), events[k + 1..], t)
    decreases |events|
  {
    if k == 0 {
      m := s;
    } else {
      m := RunSplits(After(s, events[0]), events[1..], t, k - 1);
      hide After;
      assert events[..k][1..] == events[1..][..k - 1] && events[1..][k..] == events[k + 1..];
      assert events[1..][k - 1] == events[k];
    }
  }

  lemma TakenOnce(s: State, events: seq<Event>, k: nat, m: State, n: State)
    requires TakenIn(s, events, k, m) && TakenIn(s, events, k, n)
    ensures m == n
  {
    OneEnd(s, events[..k], m, n);
  }

  lemma {:induction false} OneEnd(s: State, events: seq<Event>, m: State, n: State)
    requires Reaches(s, events, m) && Reaches(s, events, n)
    ensures m == n
    decreases |events|
  {
    hide After;
    if events != [] { OneEnd(After(s, events[0]), events[1..], m, n); }
  }

  // Whoever waits when a request is answered is told that result, for good.
  lemma WaitingAreTold(s: State, events: seq<Event>, t: State, k: nat, m: State, i: nat)
    requires Reaches(s, events, t) && TakenIn(s, events, k, m) && events[k].Remove?
    requires events[k].r in m.requests && m.requests[events[k].r].url in m.handlers
    requires i < |m.handlers[m.requests[events[k].r].url].operations|
    ensures exists f :: f in t.fired
              && ToldOf(m.handlers[m.requests[events[k].r].url].operations, i, events[k].result, f)
  {
    var n := RunSplits(s, events, t, k);
    TakenOnce(s, events, k, m, n);
    var ops, result := m.handlers[m.requests[events[k].r].url].operations, events[k].result;
    var next := After(m, events[k]);
    assert next.fired == m.fired + Answers(ops, result);
    AnswersTell(ops, result, i);
    assert Answers(ops, result)[i] in next.fired;
    hide After;
    RunTells(next, events[k + 1..], t);
  }

  // So a failed request fails for everybody waiting.
  lemma FailureIsPassedOn(s: State, events: seq<Event>, t: State, k: nat, m: State, o: Operation)
    requires Reaches(s, events, t) && TakenIn(s, events, k, m) && events[k].Remove? && events[k].result == Failure
    requires events[k].r in m.requests && m.requests[events[k].r].url in m.handlers
    requires o in m.handlers[m.requests[events[k].r].url].operations
    ensures Fired(o.id, Failure) in t.fired
  {
    var ops := m.handlers[m.requests[events[k].r].url].operations;
    var i: nat :| i < |ops| && ops[i] == o;
    WaitingAreTold(s, events, t, k, m, i);
  }

  // And nobody is told of a cancellation that did not happen.
  lemma CancelledAreCancelled(s: State, events: seq<Event>, t: State, id: nat)
    requires Reaches(s, events, t) && |s.fired| <= |t.fired| && Fired(id, CancelledResponse) in t.fired[|s.fired|..]
    ensures exists k: nat :: k < |events|
              && (events[k].Cancel? || (events[k].Remove? && events[k].result == CancelledResponse))
  {
    RunTells(s, events, t);
    var f := Fired(id, CancelledResponse);
    var k: nat, m :| TakenIn(s, events, k, m) && Tells(m, events[k], f);
    if events[k].Remove? {
      var i: nat :| ToldOf(m.handlers[m.requests[events[k].r].url].operations, i, events[k].result, f);
    }
  }

  // ----- How many downloads are under way -----

  // A request dropped from the queue that is still to be counted down.
  predicate Outstanding(q: Request) {
    q.task.Cancelled? && (q.phase.Idle? || q.phase.ToDecrement?)
  }

  ghost predicate NoneOutstanding(requests: Requests) {
    forall r :: r in requests ==> !Outstanding(requests[r])
  }

  // No cancellation of the run drops a suspended request.
  predicate NoDrops(s: State, events: seq<Event>)
    decreases |events|
  {
    events == [] || !Possible(s.requests, events[0])
    || (!Drops(s, events[0]) && NoDrops(After(s, events[0]), events[1..]))
  }

  lemma NoneAdded(s: State, e: Event)
    requires HandlersOk(s.requests, s.handlers) && Possible(s.requests, e) && NoneOutstanding(s.requests)
    requires !Drops(s, e)
    ensures NoneOutstanding(After(s, e).requests)
  {
    hide Left;
    hide FirstWith;
    hide Answers;
    if !e.Download? { TaskOf(s.requests, s.handlers, e.r); }
    hide HandlersOk;
  }

  // A decrement is then never for a request that was not started.
  lemma NoneGained(s: State, e: Event)
    requires Ok(s) && Possible(s.requests, e) && NoneOutstanding(s.requests) && Lag(s) == 0
    ensures Gain(s, e) == 0
  {
    if e.Decrement? {
      TaskOf(s.requests, s.handlers, e.r);
      assert e.r in Started(s.requests);
    }
  }

  lemma StepWithoutDrop(s: State, e: Event)
    requires Ok(s) && Possible(s.requests, e) && NoneOutstanding(s.requests) && Lag(s) == 0 && !Drops(s, e)
    ensures NoneOutstanding(After(s, e).requests) && Lag(After(s, e)) == 0
  {
    NoneAdded(s, e);
    NoneGained(s, e);
    hide After;
    hide Gain;
    StepKeeps(s, e);
  }

  // As long as none is dropped, the active count is that of the downloads under
  // way, and there are no more of them than allowed.
  lemma {:induction false} NoMoreThanAllowed(s: State, events: seq<Event>, t: State)
    requires Ok(s) && Reaches(s, events, t) && NoneOutstanding(s.requests) && Lag(s) == 0 && NoDrops(s, events)
    ensures |Started(t.requests)| == t.active <= t.maximum == s.maximum
    decreases |events|
  {
    if events == [] {
      assert CountsOk(t.requests, t.active, t.maximum);
    } else {
      hide Ok;
      StepKeeps(s, events[0]);
      StepWithoutDrop(s, events[0]);
      SameMaximum(s, events[0]);
      hide Possible;
      hide After;
      hide Lag;
      hide Drops;
      NoMoreThanAllowed(After(s, events[0]), events[1..], t);
    }
  }

  lemma SameMaximum(s: State, e: Event)
    requires Possible(s.requests, e)
    ensures After(s, e).maximum == s.maximum
  {
  }

  // With no slots nothing ever starts.
  lemma {:induction false} NothingStarts(s: State, events: seq<Event>, t: State)
    requires Ok(s) && Reaches(s, events, t) && s.maximum == 0 && Lag(s) == 0
    ensures Started(t.requests) == {} && t.maximum == 0
    decreases |events|
  {
    if events != [] {
      StepKeeps(s, events[0]);
      SameMaximum(s, events[0]);
      NothingLost(s, events[0]);
      hide Ok;
      hide Lag;
      hide After;
      hide Possible;
      NothingStarts(After(s, events[0]), events[1..], t);
    }
  }

  lemma NothingLost(s: State, e: Event)
    requires Ok(s) && Possible(s.requests, e) && s.maximum == 0 && Lag(s) == 0
    ensures Gain(s, e) == 0
  {
    StepKeeps(s, e);
    SameMaximum(s, e);
  }

  lemma FreshUrl(urls: set<string>) returns (u: string)
    ensures u !in urls && forall v :: v in urls ==> |v| < |u|
  {
    u := "u";
    var left := urls;
    while left != {}
      invariant left <= urls && forall v :: v in urls - left ==> |v| < |u|
      decreases left
    {
      var v :| v in left;
      if |v| >= |u| { u := v + "u"; }
      left := left - {v};
    }
  }

  // A request for a new url that nobody has the image of.
  lemma OneMoreUrl(s: State) returns (e: Event)
    requires Ok(s)
    ensures Possible(s.requests, e) && !Drops(s, e) && Ok(After(s, e)) && Lag(After(s, e)) == Lag(s)
    ensures var t := After(s, e);
      t.maximum == s.maximum && forall r :: r in s.requests ==> r in t.requests && t.requests[r] == s.requests[r]
    ensures s.active < s.maximum ==> After(s, e).active == s.active + 1
  {
    var u := FreshUrl(s.handlers.Keys);
    e := Download(u, "", None, None);
    StepKeeps(s, e);
    assert s.nextRequest !in s.requests;
    hide Ok;
    hide Lag;
    FreshDownload(s, u);
  }

  lemma FreshDownload(s: State, u: string)
    requires u !in s.handlers && s.nextRequest !in s.requests
    ensures var t := After(s, Download(u, "", None, None));
      && t.maximum == s.maximum
      && (forall r :: r in s.requests ==> r in t.requests && t.requests[r] == s.requests[r])
      && (s.active < s.maximum ==> t.active == s.active + 1)
  {
  }

  lemma Onward(s: State, e: Event, events: seq<Event>, t: State)
    requires Possible(s.requests, e) && !Drops(s, e) && Reaches(After(s, e), events, t) && NoDrops(After(s, e), events)
    ensures Reaches(s, [e] + events, t) && NoDrops(s, [e] + events)
  {
    assert ([e] + events)[1..] == events;
  }

  lemma FetchCounted(s: State, r: nat)
    requires Ok(s) && r in s.requests && Outstanding(s.requests[r]) && s.requests[r].phase.Idle?
    ensures Possible(s.requests, Fetch(r)) && !Drops(s, Fetch(r)) && Ok(After(s, Fetch(r)))
    ensures var t := After(s, Fetch(r));
      && t.maximum == s.maximum && t.active == s.active && r in t.requests
      && Outstanding(t.requests[r]) && t.requests[r].phase.ToDecrement?
  {
    StepKeeps(s, Fetch(r));
    FetchKeeps(s, r);
  }

  // Behind by one, the count lets one more start than there are slots.
  lemma {:induction false} FillsUp(s: State) returns (events: seq<Event>, t: State)
    requires Ok(s) && Lag(s) > 0
    ensures Reaches(s, events, t) && NoDrops(s, events) && |Started(t.requests)| > t.maximum
    decreases s.maximum - s.active
  {
    assert s.active <= s.maximum && Lag(s) == |Started(s.requests)| - s.active;
    if s.active < s.maximum {
      var e := OneMoreUrl(s);
      events, t := FillsUp(After(s, e));
      Onward(s, e, events, t);
      events := [e] + events;
    } else {
      events, t := [], s;
    }
  }

  lemma DecrementGains(s: State, r: nat)
    requires Ok(s) && s.active > 0 && r in s.requests && Outstanding(s.requests[r]) && s.requests[r].phase.ToDecrement?
    ensures Possible(s.requests, Decrement(r)) && !Drops(s, Decrement(r)) && Ok(After(s, Decrement(r)))
    ensures Lag(After(s, Decrement(r))) > 0
  {
    StepKeeps(s, Decrement(r));
    TaskOf(s.requests, s.handlers, r);
    assert Lag(s) >= 0;
  }

  // From any state in which a dropped request is still to be counted down more
  // downloads than allowed can come under way.
  lemma {:induction false} Overrun(s: State, r: nat) returns (events: seq<Event>, t: State)
    requires Ok(s) && s.maximum > 0 && r in s.requests && Outstanding(s.requests[r])
    ensures Reaches(s, events, t) && NoDrops(s, events) && |Started(t.requests)| > t.maximum
    decreases s.maximum - s.active, if s.requests[r].phase.Idle? then 1 else 0
  {
    assert s.active <= s.maximum;
    if s.active < s.maximum {
      var e := OneMoreUrl(s);
      events, t := Overrun(After(s, e), r);
      Onward(s, e, events, t);
      events := [e] + events;
    } else if s.requests[r].phase.Idle? {
      FetchCounted(s, r);
      events, t := Overrun(After(s, Fetch(r)), r);
      Onward(s, Fetch(r), events, t);
      events := [Fetch(r)] + events;
    } else {
      DecrementGains(s, r);
      events, t := FillsUp(After(s, Decrement(r)));
      Onward(s, Decrement(r), events, t);
      events := [Decrement(r)] + events;
    }
  }

  // Without further drops no more downloads come under way than allowed.
  ghost predicate LimitSafe(s: State) {
    forall events, t :: Reaches(s, events, t) && NoDrops(s, events) ==> |Started(t.requests)| <= t.maximum
  }

  // That is so just when the active count is that of the downloads under way and no
  // dropped request is still to be counted down, or there are no slots at all.
  lemma LimitSafeIff(s: State)
    requires Ok(s)
    ensures LimitSafe(s) <==> Lag(s) == 0 && (NoneOutstanding(s.requests) || s.maximum == 0)
  {
    hide Ok;
    hide Lag;
    hide Reaches;
    hide NoDrops;
    hide Started;
    hide Outstanding;
    LagIsNatural(s);
    if Lag(s) > 0 {
      var events, t := FillsUp(s);
    } else if !NoneOutstanding(s.requests) && s.maximum > 0 {
      var r :| r in s.requests && Outstanding(s.requests[r]);
      var events, t := Overrun(s, r);
    } else {
      forall events, t | Reaches(s, events, t) && NoDrops(s, events)
        ensures |Started(t.requests)| <= t.maximum
      {
        if s.maximum == 0 { NothingStarts(s, events, t); } else { NoMoreThanAllowed(s, events, t); }
      }
    }
  }

  lemma LagIsNatural(s: State)
    requires Ok(s)
    ensures Lag(s) >= 0
  {
  }

  // While the limit is safe, a step endangers it just when it drops a request.
  lemma OnlyDropsEndanger(s: State, e: Event)
    requires Ok(s) && LimitSafe(s) && s.maximum > 0 && Possible(s.requests, e)
    ensures LimitSafe(After(s, e)) <==> !Drops(s, e)
  {
    hide LimitSafe;
    LimitSafeIff(s);
    StepKeeps(s, e);
    SameMaximum(s, e);
    if Drops(s, e) {
      TaskOf(s.requests, s.handlers, e.r);
      assert Outstanding(After(s, e).requests[e.r]);
    } else {
      StepWithoutDrop(s, e);
    }
    LimitSafeIff(After(s, e));
  }

  lemma NewDownloadersKeepTheLimit(maximum: nat, fifo: bool, events: seq<Event>, t: State)
    requires Reaches(Created(maximum, fifo), events, t) && NoDrops(Created(maximum, fifo), events)
    ensures |Started(t.requests)| == t.active <= maximum
  {
    CreatedOk(maximum, fifo);
    hide Ok;
    hide Reaches;
    hide NoDrops;
    NoMoreThanAllowed(Created(maximum, fifo), events, t);
  }
}
