// The scheduler of image downloads. Every method of the class is one block run
// on the serial queue; the answer to a finished request takes four of them, and
// anything may come in between.
module ImageDownloaders {
  import opened Basics

  datatype Image = Raw(number: nat) | Filtered(effect: nat, of: Image)

  datatype Filter = Filter(identifier: string, effect: nat)

  // The id tells one call of download from another; receipt IDs are up to the caller.
  datatype Operation = Operation(id: nat, receiptID: string, filter: Option<Filter>)

  datatype ResponseHandler = ResponseHandler(handlerID: nat, request: nat, operations: seq<Operation>)

  datatype Task = Suspended | Running | Cancelled | Completed

  // How far the answer to a request has got.
  datatype Phase = Idle | Matched | ToDecrement | ToStartNext | Done

  datatype Request = Request(url: string, handlerID: nat, task: Task, started: bool, phase: Phase)

  datatype Response = CancelledResponse | Failure | Success(image: Image)

  // A completion scheduled on the main queue.
  datatype Fired = Fired(id: nat, response: Response)

  type Requests = map<nat, Request>

  type Handlers = map<string, ResponseHandler>

  // ----- What always holds -----

  // A request that will fire the operations of its handler.
  predicate Awaits(q: Request) {
    q.task.Suspended? || q.task.Running? || q.phase.Matched?
  }

  predicate InPlace(requests: Requests, handlers: Handlers, r: nat)
    requires r in requests
  {
    requests[r].url in handlers && handlers[requests[r].url].request == r
  }

  // A task's state tells whether it was started and whether it is being answered.
  predicate TaskOk(q: Request) {
    match q.task
    case Suspended => !q.started && q.phase.Idle?
    case Running => q.started && q.phase.Idle?
    case Cancelled => !q.started && !q.phase.Matched?
    case Completed => q.started && !q.phase.Idle?
  }

  // Handlers and the requests that await an answer belong together one to one.
  ghost predicate HandlersOk(requests: Requests, handlers: Handlers) {
    && (forall r :: r in requests ==> requests[r].handlerID == r && TaskOk(requests[r]))
    && (forall r :: r in requests && Awaits(requests[r]) ==> InPlace(requests, handlers, r))
    && (forall u :: u in handlers ==>
          var r := handlers[u].request;
          r in requests && requests[r].url == u && handlers[u].handlerID == r && Awaits(requests[r]))
  }

  ghost predicate QueueOk(requests: Requests, queue: seq<nat>) {
    && (forall r :: r in queue ==> r in requests && !requests[r].started)
    && (forall i, j :: 0 <= i < j < |queue| ==> queue[i] != queue[j])
    && (forall r :: r in requests && requests[r].task.Suspended? ==> r in queue)
  }

  // The operations not yet fired.
  function Waiting(handlers: Handlers): set<nat> {
    set u, o | u in handlers && o in handlers[u].operations :: o.id
  }

  function FiredIds(fired: seq<Fired>): set<nat> {
    set f | f in fired :: f.id
  }

  predicate At(handlers: Handlers, u: string, i: int) {
    u in handlers && 0 <= i < |handlers[u].operations|
  }

  ghost predicate Distinct(handlers: Handlers) {
    forall u, i, v, j ::
      At(handlers, u, i) && At(handlers, v, j) && handlers[u].operations[i].id == handlers[v].operations[j].id
      ==> u == v && i == j
  }

  ghost predicate FiredOnce(fired: seq<Fired>) {
    forall i, j :: 0 <= i < j < |fired| ==> fired[i].id != fired[j].id
  }

  // Every operation ever given is waiting, once, or has been fired, once.
  ghost predicate OperationsOk(handlers: Handlers, fired: seq<Fired>, next: nat) {
    && Distinct(handlers) && FiredOnce(fired)
    && (forall id :: id in Waiting(handlers) ==> id !in FiredIds(fired))
    && (forall id :: id in Waiting(handlers) || id in FiredIds(fired) <==> 0 <= id < next)
  }

  // Started, and the active count not yet decremented for it.
  predicate InFlight(q: Request) {
    q.started && !q.phase.ToStartNext? && !q.phase.Done?
  }

  function Started(requests: Requests): set<nat> {
    set r | r in requests && InFlight(requests[r])
  }

  // Start-next steps still to come.
  function StartNextSteps(requests: Requests): set<nat> {
    set r | r in requests && requests[r].phase.ToStartNext?
  }

  ghost predicate Startable(requests: Requests) {
    exists r :: r in requests && requests[r].task.Suspended?
  }

  // The scheduler strands no work: while a request could be started, there are
  // start-next steps to come for all free slots.
  ghost predicate CountsOk(requests: Requests, active: nat, maximum: nat) {
    && active <= maximum && active <= |Started(requests)|
    && (Startable(requests) ==> maximum - active <= |StartNextSteps(requests)|)
  }

  // How many more downloads run than the active count says.
  function Surplus(requests: Requests, active: nat): int {
    |Started(requests)| - active
  }

  // ----- Filters -----

  predicate HasFilter(o: Operation, identifier: string) {
    o.filter.Some? && o.filter.value.identifier == identifier
  }

  // The first operation whose filter has this identifier.
  function FirstIndex(ops: seq<Operation>, identifier: string): (i: nat)
    ensures i <= |ops| && (i < |ops| ==> HasFilter(ops[i], identifier))
    ensures forall j :: 0 <= j < i ==> !HasFilter(ops[j], identifier)
  {
    if ops == [] || HasFilter(ops[0], identifier) then 0 else 1 + FirstIndex(ops[1..], identifier)
  }

  // An operation gets the image as filtered for the first of those with its
  // filter's identifier.
  function ImageFor(ops: seq<Operation>, i: nat, image: Image): Image
    requires i < |ops|
  {
    if ops[i].filter.None? then image
    else
      var j := FirstIndex(ops, ops[i].filter.value.identifier);
      assert HasFilter(ops[i], ops[i].filter.value.identifier);
      Filtered(ops[j].filter.value.effect, image)
  }

  function ResponseFor(ops: seq<Operation>, i: nat, result: Response): Response
    requires i < |ops|
  {
    if result.Success? then Success(ImageFor(ops, i, result.image)) else result
  }

  function Answers(ops: seq<Operation>, result: Response): (r: seq<Fired>)
    ensures |r| == |ops|
  {
    seq(|ops|, i requires 0 <= i < |ops| => Fired(ops[i].id, ResponseFor(ops, i, result)))
  }

  // What the operation at i is told of a result: a failure as it is, the image itself,
  // or the image through the first filter with the identifier of its own.
  ghost predicate ToldOf(ops: seq<Operation>, i: nat, result: Response, f: Fired) {
    && i < |ops| && f.id == ops[i].id
    && (!result.Success? ==> f.response == result)
    && (result.Success? && ops[i].filter.None? ==> f.response == Success(result.image))
    && (result.Success? && ops[i].filter.Some? ==> exists j: nat :: FilteredBy(ops, i, j, result.image, f.response))
  }

  ghost predicate FilteredBy(ops: seq<Operation>, i: nat, j: nat, image: Image, response: Response) {
    && j <= i < |ops| && ops[i].filter.Some? && ops[j].filter.Some?
    && ops[j].filter.value.identifier == ops[i].filter.value.identifier
    && (forall k :: 0 <= k < j && ops[k].filter.Some?
          ==> ops[k].filter.value.identifier != ops[i].filter.value.identifier)
    && response == Success(Filtered(ops[j].filter.value.effect, image))
  }

  lemma AnswersTell(ops: seq<Operation>, result: Response, i: nat)
    requires i < |ops|
    ensures ToldOf(ops, i, result, Answers(ops, result)[i])
  {
    if result.Success? && ops[i].filter.Some? {
      var j := FirstIndex(ops, ops[i].filter.value.identifier);
      assert HasFilter(ops[i], ops[i].filter.value.identifier);
      assert forall k :: 0 <= k < j ==> !HasFilter(ops[k], ops[i].filter.value.identifier);
      assert FilteredBy(ops, i, j, result.image, Answers(ops, result)[i].response);
    }
  }

  // The images filtered so far: one for each identifier among the first i.
  ghost predicate FilteredSoFar(ops: seq<Operation>, i: nat, image: Image, filteredImages: map<string, Image>) {
    && (forall id :: id in filteredImages ==> var j := FirstIndex(ops, id);
                                              j < i && j < |ops|
                                              && filteredImages[id] == Filtered(ops[j].filter.value.effect, image))
    && (forall j :: 0 <= j < i && j < |ops| && ops[j].filter.Some? ==> ops[j].filter.value.identifier in filteredImages)
  }

  lemma OneMoreFiltered(ops: seq<Operation>, i: nat, image: Image, filteredImages: map<string, Image>)
    requires i < |ops| && FilteredSoFar(ops, i, image, filteredImages) && ops[i].filter.Some?
    ensures var f := ops[i].filter.value;
      var after := if f.identifier in filteredImages then filteredImages
                   else filteredImages[f.identifier := Filtered(f.effect, image)];
      FilteredSoFar(ops, i + 1, image, after) && after[f.identifier] == ImageFor(ops, i, image)
  {
    var id := ops[i].filter.value.identifier;
    assert HasFilter(ops[i], id);
    assert id !in filteredImages ==> FirstIndex(ops, id) == i;
  }

  // Each filter runs once for all operations that share its identifier.
  method Answer(ops: seq<Operation>, result: Response) returns (answers: seq<Fired>)
    ensures answers == Answers(ops, result)
    ensures |answers| == |ops| && forall i :: 0 <= i < |ops| ==> ToldOf(ops, i, result, answers[i])
  {
    hide ImageFor;
    hide ToldOf;
    answers := [];
    var filteredImages: map<string, Image> := map[];
    for i := 0 to |ops|
      invariant |answers| == i && forall j :: 0 <= j < i ==> answers[j] == Fired(ops[j].id, ResponseFor(ops, j, result))
      invariant result.Success? ==> FilteredSoFar(ops, i, result.image, filteredImages)
    {
      var response := result;
      if result.Success? {
        if ops[i].filter.Some? {
          OneMoreFiltered(ops, i, result.image, filteredImages);
          var filter := ops[i].filter.value;
          if filter.identifier !in filteredImages {
            filteredImages := filteredImages[filter.identifier := Filtered(filter.effect, result.image)];
          }
          response := Success(filteredImages[filter.identifier]);
        } else {
          NoneFiltered(ops, i, result.image);
        }
      }
      answers := answers + [Fired(ops[i].id, response)];
    }
    forall i | 0 <= i < |ops|
      ensures ToldOf(ops, i, result, Answers(ops, result)[i])
    {
      AnswersTell(ops, result, i);
    }
  }

  lemma NoneFiltered(ops: seq<Operation>, i: nat, image: Image)
    requires i < |ops| && ops[i].filter.None?
    ensures ImageFor(ops, i, image) == image
  {
  }

  // ----- Steps on handlers -----

  function Without(ops: seq<Operation>, i: nat): seq<Operation>
    requires i < |ops|
  {
    ops[..i] + ops[i + 1..]
  }

  function IdsOf(ops: seq<Operation>): set<nat> {
    set o | o in ops :: o.id
  }

  // One more operation for a url, whose handler may be new.
  lemma OneMoreOperation(handlers: Handlers, fired: seq<Fired>, next: nat, u: string, h: ResponseHandler, o: Operation)
    requires OperationsOk(handlers, fired, next) && o.id == next
    requires h.operations == (if u in handlers then handlers[u].operations else []) + [o]
    ensures OperationsOk(handlers[u := h], fired, next + 1)
  {
    var after := handlers[u := h];
    forall id
      ensures id in Waiting(after) <==> id in Waiting(handlers) || id == next
    {
      if id in Waiting(handlers) {
        var v, p :| v in handlers && p in handlers[v].operations && p.id == id;
        assert v in after && p in after[v].operations;
      }
      if id == next {
        assert u in after && o in after[u].operations;
      }
    }
    forall v, i | At(after, v, i)
      ensures after[v].operations[i].id != next ==>
        At(handlers, v, i) && handlers[v].operations[i] == after[v].operations[i]
      ensures after[v].operations[i].id == next <==> v == u && i == |h.operations| - 1
    {
      assert At(handlers, v, i) ==> handlers[v].operations[i].id in Waiting(handlers);
    }
  }

  // Taking out the i-th operation of a url.
  lemma WithoutOne(ops: seq<Operation>, i: nat)
    requires i < |ops|
    ensures |Without(ops, i)| == |ops| - 1
    ensures forall j :: 0 <= j < |ops| - 1 ==> Without(ops, i)[j] == ops[if j < i then j else j + 1]
    ensures forall o :: o in ops ==> o == ops[i] || o in Without(ops, i)
  {
    forall o | o in ops && o != ops[i]
      ensures o in Without(ops, i)
    {
      var j :| 0 <= j < |ops| && ops[j] == o;
      assert Without(ops, i)[if j < i then j else j - 1] == o;
    }
  }

  lemma OneLessDistinct(handlers: Handlers, u: string, i: nat, h: ResponseHandler)
    requires Distinct(handlers) && At(handlers, u, i) && h.operations == Without(handlers[u].operations, i)
    ensures Distinct(handlers[u := h])
  {
    var after := handlers[u := h];
    WithoutOne(handlers[u].operations, i);
    hide Without;
    forall v, j, w, k | At(after, v, j) && At(after, w, k) && after[v].operations[j].id == after[w].operations[k].id
      ensures v == w && j == k
    {
      assert At(handlers, v, if v != u || j < i then j else j + 1);
      assert At(handlers, w, if w != u || k < i then k else k + 1);
    }
  }

  lemma NotThere(handlers: Handlers, u: string, i: nat, h: ResponseHandler, v: string, j: nat)
    requires Distinct(handlers) && At(handlers, u, i) && h.operations == Without(handlers[u].operations, i)
    requires At(handlers[u := h], v, j)
    ensures handlers[u := h][v].operations[j].id != handlers[u].operations[i].id
    ensures handlers[u := h][v].operations[j] in handlers[v].operations
  {
    WithoutOne(handlers[u].operations, i);
    assert At(handlers, v, if v != u || j < i then j else j + 1);
  }

  lemma OneLessWaiting(handlers: Handlers, u: string, i: nat, h: ResponseHandler)
    requires Distinct(handlers) && At(handlers, u, i) && h.operations == Without(handlers[u].operations, i)
    ensures Waiting(handlers[u := h]) == Waiting(handlers) - {handlers[u].operations[i].id}
  {
    var after, id := handlers[u := h], handlers[u].operations[i].id;
    forall k | k in Waiting(after)
      ensures k in Waiting(handlers) && k != id
    {
      var v, o :| v in after && o in after[v].operations && o.id == k;
      var j :| 0 <= j < |after[v].operations| && after[v].operations[j] == o;
      NotThere(handlers, u, i, h, v, j);
      assert v in handlers && o in handlers[v].operations;
    }
    WithoutOne(handlers[u].operations, i);
    hide Distinct;
    hide Without;
    forall k | k in Waiting(handlers) && k != id
      ensures k in Waiting(after)
    {
      var v, o :| v in handlers && o in handlers[v].operations && o.id == k;
      assert v in after && o in after[v].operations;
    }
  }

  // An operation answered with a cancellation.
  lemma OperationCancelled(handlers: Handlers, fired: seq<Fired>, next: nat, u: string, i: nat, h: ResponseHandler)
    requires OperationsOk(handlers, fired, next) && At(handlers, u, i)
    requires h.operations == Without(handlers[u].operations, i)
    ensures OperationsOk(handlers[u := h], fired + [Fired(handlers[u].operations[i].id, CancelledResponse)], next)
  {
    var id := handlers[u].operations[i].id;
    assert handlers[u].operations[i] in handlers[u].operations && id in Waiting(handlers);
    OneLessDistinct(handlers, u, i, h);
    OneLessWaiting(handlers, u, i, h);
    FireOne(fired, Fired(id, CancelledResponse));
    hide Waiting;
    hide Distinct;
    hide FiredOnce;
    hide FiredIds;
  }

  lemma FireOne(fired: seq<Fired>, f: Fired)
    requires FiredOnce(fired) && f.id !in FiredIds(fired)
    ensures FiredOnce(fired + [f]) && FiredIds(fired + [f]) == FiredIds(fired) + {f.id}
  {
    assert forall i :: 0 <= i < |fired| ==> fired[i] in fired;
    assert forall g :: g in fired + [f] <==> g in fired || g == f;
  }

  // An operation served from the image cache at once.
  lemma OperationServed(handlers: Handlers, fired: seq<Fired>, next: nat, f: Fired)
    requires OperationsOk(handlers, fired, next) && f.id == next
    ensures OperationsOk(handlers, fired + [f], next + 1)
  {
    FireOne(fired, f);
  }

  // A handler removed and all its operations answered.
  lemma HandlerAnswered(handlers: Handlers, fired: seq<Fired>, next: nat, u: string, result: Response)
    requires OperationsOk(handlers, fired, next) && u in handlers
    ensures OperationsOk(handlers - {u}, fired + Answers(handlers[u].operations, result), next)
  {
    var after, ops := handlers - {u}, handlers[u].operations;
    forall k
      ensures k in Waiting(handlers) <==> k in Waiting(after) || k in IdsOf(ops)
      ensures k in Waiting(after) ==> k !in IdsOf(ops)
    {
      if k in Waiting(handlers) {
        var v, p :| v in handlers && p in handlers[v].operations && p.id == k;
        assert v != u ==> v in after && p in after[v].operations;
      }
      if k in Waiting(after) {
        var v, p :| v in after && p in after[v].operations && p.id == k;
        assert v in handlers && p in handlers[v].operations;
        var j :| 0 <= j < |after[v].operations| && after[v].operations[j] == p;
        assert At(handlers, v, j);
        assert forall i :: 0 <= i < |ops| ==> At(handlers, u, i);
      }
    }
    assert forall i, j :: 0 <= i < j < |ops| ==> At(handlers, u, i) && At(handlers, u, j) && ops[i].id != ops[j].id;
    assert forall k :: k in IdsOf(ops) ==> k in Waiting(handlers);
    FireAll(fired, ops, result);
    forall v, j | At(after, v, j)
      ensures At(handlers, v, j) && handlers[v].operations[j] == after[v].operations[j]
    {
    }
  }

  lemma NothingToAnswer(handlers: Handlers, fired: seq<Fired>, next: nat, u: string)
    requires OperationsOk(handlers, fired, next) && u in handlers && handlers[u].operations == []
    ensures OperationsOk(handlers - {u}, fired, next)
  {
    HandlerAnswered(handlers, fired, next, u, Failure);
    assert fired + Answers([], Failure) == fired;
  }

  lemma FireAll(fired: seq<Fired>, ops: seq<Operation>, result: Response)
    requires FiredOnce(fired) && forall i, j :: 0 <= i < j < |ops| ==> ops[i].id != ops[j].id
    requires forall k :: k in IdsOf(ops) ==> k !in FiredIds(fired)
    ensures FiredOnce(fired + Answers(ops, result))
    ensures FiredIds(fired + Answers(ops, result)) == FiredIds(fired) + IdsOf(ops)
  {
    var answers := Answers(ops, result);
    var all := fired + answers;
    forall k
      ensures k in FiredIds(all) <==> k in FiredIds(fired) || k in IdsOf(ops)
    {
      if k in FiredIds(fired) {
        var f :| f in fired && f.id == k;
        assert f in all;
      }
      if k in IdsOf(ops) {
        var o :| o in ops && o.id == k;
        var i :| 0 <= i < |ops| && ops[i] == o;
        assert answers[i] in all;
      }
      if k in FiredIds(all) {
        var f :| f in all && f.id == k;
        var i :| 0 <= i < |all| && all[i] == f;
        assert i >= |fired| ==> all[i] == answers[i - |fired|] && ops[i - |fired|] in ops;
      }
    }
    forall i, j | 0 <= i < j < |all|
      ensures all[i].id != all[j].id
    {
      assert i < |fired| ==> all[i] in fired && all[i].id in FiredIds(fired);
      assert j >= |fired| ==> all[j] == answers[j - |fired|] && ops[j - |fired|] in ops && all[j].id in IdsOf(ops);
      assert i >= |fired| ==> all[i] == answers[i - |fired|];
    }
  }

  // ----- Steps on requests -----

  lemma StartableBefore(requests: Requests, r: nat, q: Request)
    requires q.task.Suspended? ==> r in requests && requests[r].task.Suspended?
    ensures Startable(requests[r := q]) ==> Startable(requests)
  {
    if Startable(requests[r := q]) {
      var s :| s in requests[r := q] && requests[r := q][s].task.Suspended?;
      assert s in requests && requests[s].task.Suspended?;
    }
  }

  lemma TaskOf(requests: Requests, handlers: Handlers, r: nat)
    requires HandlersOk(requests, handlers) && r in requests
    ensures TaskOk(requests[r]) && requests[r].handlerID == r
  {
  }

  lemma Counted(requests: Requests, r: nat, q: Request)
    ensures Started(requests[r := q]) == if InFlight(q) then Started(requests) + {r} else Started(requests) - {r}
    ensures StartNextSteps(requests[r := q])
         == if q.phase.ToStartNext? then StartNextSteps(requests) + {r} else StartNextSteps(requests) - {r}
  {
  }

  lemma NewRequest(requests: Requests, handlers: Handlers, u: string, r: nat, q: Request, h: ResponseHandler)
    requires HandlersOk(requests, handlers) && r !in requests && u !in handlers
    requires q.url == u && q.handlerID == h.handlerID == h.request == r && TaskOk(q) && Awaits(q)
    ensures HandlersOk(requests[r := q], handlers[u := h])
  {
  }

  lemma SameHandler(requests: Requests, handlers: Handlers, u: string, h: ResponseHandler)
    requires HandlersOk(requests, handlers) && u in handlers
    requires h.request == handlers[u].request && h.handlerID == handlers[u].handlerID
    ensures HandlersOk(requests, handlers[u := h])
  {
  }

  // A request goes on without starting or ending to await an answer.
  lemma RequestGoesOn(requests: Requests, handlers: Handlers, r: nat, q: Request)
    requires HandlersOk(requests, handlers) && r in requests
    requires q.url == requests[r].url && q.handlerID == r && TaskOk(q) && (Awaits(q) <==> Awaits(requests[r]))
    ensures HandlersOk(requests[r := q], handlers)
  {
  }

  // A request no longer awaits an answer, and its handler is gone.
  lemma HandlerGone(requests: Requests, handlers: Handlers, r: nat, q: Request)
    requires HandlersOk(requests, handlers) && r in requests && Awaits(requests[r])
    requires q.url == requests[r].url && q.handlerID == r && TaskOk(q) && !Awaits(q)
    ensures HandlersOk(requests[r := q], handlers - {q.url})
  {
  }

  lemma QueueWith(requests: Requests, queue: seq<nat>, r: nat, q: Request)
    requires QueueOk(requests, queue) && r !in requests
    ensures q.task.Suspended? && !q.started
            ==> QueueOk(requests[r := q], queue + [r]) && QueueOk(requests[r := q], [r] + queue)
    ensures !q.task.Suspended? ==> QueueOk(requests[r := q], queue)
  {
    assert forall i :: 0 <= i < |queue| ==> queue[i] in queue;
    assert forall s :: s in queue + [r] <==> s in queue || s == r;
    assert forall s :: s in [r] + queue <==> s in queue || s == r;
  }

  lemma QueueStays(requests: Requests, queue: seq<nat>, r: nat, q: Request)
    requires QueueOk(requests, queue) && r in requests && q.started == requests[r].started
    requires (q.task.Suspended? ==> requests[r].task.Suspended?)
    ensures QueueOk(requests[r := q], queue)
  {
  }

  lemma CountsWith(requests: Requests, active: nat, maximum: nat, r: nat, q: Request)
    requires CountsOk(requests, active, maximum) && r !in requests
    requires q.phase.Idle? && if active < maximum then q.started && !q.task.Suspended? else !q.started
    ensures CountsOk(requests[r := q], if active < maximum then active + 1 else active, maximum)
    ensures Surplus(requests[r := q], if active < maximum then active + 1 else active) == Surplus(requests, active)
  {
    Counted(requests, r, q);
    if active < maximum { StartableBefore(requests, r, q); }
    assert r !in Started(requests) && r !in StartNextSteps(requests);
    hide Started;
    hide StartNextSteps;
    hide Startable;
  }

  lemma SameSet(s: set<nat>, r: nat)
    ensures r in s ==> s + {r} == s
    ensures r !in s ==> s - {r} == s
  {
  }

  lemma CountsStay(requests: Requests, active: nat, maximum: nat, r: nat, q: Request)
    requires CountsOk(requests, active, maximum) && r in requests && (q.task.Suspended? ==> requests[r].task.Suspended?)
    requires InFlight(q) == InFlight(requests[r]) && q.phase.ToStartNext? == requests[r].phase.ToStartNext?
    ensures CountsOk(requests[r := q], active, maximum)
    ensures Started(requests[r := q]) == Started(requests)
  {
    Counted(requests, r, q);
    StartableBefore(requests, r, q);
    assert r in Started(requests) <==> InFlight(q);
    assert r in StartNextSteps(requests) <==> q.phase.ToStartNext?;
    SameSet(Started(requests), r);
    SameSet(StartNextSteps(requests), r);
    hide Started;
    hide StartNextSteps;
    hide Startable;
  }

  lemma CountsDecremented(requests: Requests, active: nat, maximum: nat, r: nat, q: Request)
    requires CountsOk(requests, active, maximum) && r in requests && requests[r].phase.ToDecrement?
    requires q == requests[r].(phase := ToStartNext) && !q.task.Suspended?
    ensures CountsOk(requests[r := q], if active > 0 then active - 1 else 0, maximum)
    ensures Surplus(requests[r := q], if active > 0 then active - 1 else 0)
         == Surplus(requests, active) + (if active > 0 then 1 else 0) - (if q.started then 1 else 0)
  {
    SameSet(Started(requests), r);
    Counted(requests, r, q);
    StartableBefore(requests, r, q);
    assert r !in StartNextSteps(requests) && (r in Started(requests) <==> q.started);
    hide Started;
    hide StartNextSteps;
    hide Startable;
  }

  lemma CountsDone(requests: Requests, active: nat, maximum: nat, r: nat, q: Request, queue: seq<nat>)
    requires CountsOk(requests, active, maximum) && r in requests && requests[r].phase.ToStartNext?
    requires q == requests[r].(phase := Done) && !q.task.Suspended?
    ensures Started(requests[r := q]) == Started(requests)
    ensures |StartNextSteps(requests[r := q])| == |StartNextSteps(requests)| - 1
    ensures active >= maximum ==> CountsOk(requests[r := q], active, maximum)
    ensures Surplus(requests[r := q], active) == Surplus(requests, active)
  {
    Counted(requests, r, q);
    StartableBefore(requests, r, q);
    assert r in StartNextSteps(requests) && r !in Started(requests);
  }

  lemma SameStartable(requests: Requests, r: nat, q: Request, queue: seq<nat>)
    requires r in requests && !requests[r].task.Suspended? && !q.task.Suspended?
    ensures FirstStartable(requests[r := q], queue) == FirstStartable(requests, queue)
  {
    hide FirstStartable;
    var i, j := FirstStartable(requests[r := q], queue), FirstStartable(requests, queue);
    assert i < |queue| ==> queue[i] in requests && requests[queue[i]].task.Suspended?;
    assert j < |queue| ==> queue[j] in requests[r := q] && requests[r := q][queue[j]].task.Suspended?;
  }

  // The first request in the queue that is still suspended takes the free slot.
  lemma StartFromQueue(requests: Requests, queue: seq<nat>, handlers: Handlers, active: nat, maximum: nat, r: nat,
                       q: Request, i: nat)
    requires CountsOk(requests, active, maximum) && QueueOk(requests, queue) && active < maximum
    requires r in requests && requests[r].phase.ToStartNext? && q == requests[r].(phase := Done) && !q.task.Suspended?
    requires HandlersOk(requests[r := q], handlers)
    requires i < |queue| && queue[i] in requests && requests[queue[i]].task.Suspended?
    requires i == FirstStartable(requests, queue)
    ensures var after := requests[r := q][queue[i] := requests[queue[i]].(task := Running, started := true)];
      && HandlersOk(after, handlers) && QueueOk(after, queue[i + 1..]) && CountsOk(after, active + 1, maximum)
      && Surplus(after, active + 1) == Surplus(requests, active)
  {
    var next := queue[i];
    var running := requests[next].(task := Running, started := true);
    var was := requests[r := q];
    TaskOf(was, handlers, next);
    RequestGoesOn(was, handlers, next, running);
    hide HandlersOk;
    CountsDone(requests, active, maximum, r, q, queue);
    Counted(was, next, running);
    StartableBefore(requests, r, q);
    StartableBefore(was, next, running);
    assert next !in Started(was) && next !in StartNextSteps(was);
    hide Started;
    hide StartNextSteps;
    hide Startable;
    QueueAfter(requests, queue, r, q, i, running);
  }

  lemma QueueAfter(requests: Requests, queue: seq<nat>, r: nat, q: Request, i: nat, running: Request)
    requires QueueOk(requests, queue) && r in requests && !q.task.Suspended? && q.started == requests[r].started
    requires i < |queue| && running.task.Running?
    requires forall j :: 0 <= j < i ==> !(queue[j] in requests && requests[queue[j]].task.Suspended?)
    ensures QueueOk(requests[r := q][queue[i] := running], queue[i + 1..])
  {
    var after, rest := requests[r := q][queue[i] := running], queue[i + 1..];
    forall s | s in rest
      ensures s in after && !after[s].started
    {
      var j :| 0 <= j < |rest| && rest[j] == s;
      assert queue[i + 1 + j] == s && s in queue;
    }
    forall s | s in after && after[s].task.Suspended?
      ensures s in rest
    {
      assert s in queue;
      var j :| 0 <= j < |queue| && queue[j] == s;
      assert j > i;
      assert rest[j - i - 1] == s;
    }
  }

  lemma NothingToStart(requests: Requests, queue: seq<nat>, active: nat, maximum: nat, r: nat, q: Request)
    requires CountsOk(requests, active, maximum) && QueueOk(requests, queue)
    requires r in requests && requests[r].phase.ToStartNext? && q == requests[r].(phase := Done) && !q.task.Suspended?
    requires FirstStartable(requests, queue) == |queue|
    ensures QueueOk(requests[r := q], []) && CountsOk(requests[r := q], active, maximum)
  {
    CountsDone(requests, active, maximum, r, q, queue);
    StartableBefore(requests, r, q);
    assert !Startable(requests);
    hide Startable;
    hide Started;
    hide StartNextSteps;
  }

  // The place of the first operation with this receipt, if there is one.
  function FirstWith(ops: seq<Operation>, receiptID: string): (i: nat)
    ensures i <= |ops| && (i < |ops| ==> ops[i].receiptID == receiptID)
    ensures forall j :: 0 <= j < i ==> ops[j].receiptID != receiptID
  {
    if ops == [] || ops[0].receiptID == receiptID then 0 else 1 + FirstWith(ops[1..], receiptID)
  }

  // The place of the first request in the queue that can be started.
  function FirstStartable(requests: Requests, queue: seq<nat>): (i: nat)
    ensures i <= |queue| && (i < |queue| ==> queue[i] in requests && requests[queue[i]].task.Suspended?)
    ensures forall j :: 0 <= j < i ==> !(queue[j] in requests && requests[queue[j]].task.Suspended?)
  {
    if queue == [] || (queue[0] in requests && requests[queue[0]].task.Suspended?) then 0
    else 1 + FirstStartable(requests, queue[1..])
  }

  // ----- The downloader -----

  class ImageDownloader {
    const maximumActiveDownloads: nat
    const fifo: bool
    var activeRequestCount: nat
    var queuedRequests: seq<nat>
    var responseHandlers: Handlers
    // What lies outside the downloader: the tasks, and what was scheduled on the main queue.
    var requests: Requests
    var nextRequest: nat
    var nextOperation: nat
    ghost var fired: seq<Fired>

    ghost predicate Valid()
      reads this
    {
      && HandlersOk(requests, responseHandlers)
      && QueueOk(requests, queuedRequests)
      && OperationsOk(responseHandlers, fired, nextOperation)
      && CountsOk(requests, activeRequestCount, maximumActiveDownloads)
      && forall r :: r in requests ==> r < nextRequest
    }

    constructor (maximumActiveDownloads: nat, fifo: bool)
      ensures Valid() && requests == map[] && responseHandlers == map[] && queuedRequests == [] && fired == []
      ensures activeRequestCount == 0 && nextRequest == 0 && nextOperation == 0
      ensures this.maximumActiveDownloads == maximumActiveDownloads && this.fifo == fifo
    {
      this.maximumActiveDownloads, this.fifo := maximumActiveDownloads, fifo;
      activeRequestCount, queuedRequests, responseHandlers, requests, nextRequest := 0, [], map[], map[], 0;
      nextOperation, fired := 0, [];
    }

    predicate IsActiveRequestCountBelowMaximumLimit()
      reads this
    {
      activeRequestCount < maximumActiveDownloads
    }

    method Start(r: nat)
      requires r in requests
      modifies this`requests, this`activeRequestCount
      ensures requests == old(requests)[r := old(requests[r]).(task := Running, started := true)]
      ensures activeRequestCount == old(activeRequestCount) + 1
    {
      requests := requests[r := requests[r].(task := Running, started := true)];
      activeRequestCount := activeRequestCount + 1;
    }

    method Enqueue(r: nat)
      modifies this`queuedRequests
      ensures queuedRequests == if fifo then old(queuedRequests) + [r] else [r] + old(queuedRequests)
    {
      if fifo {
        queuedRequests := queuedRequests + [r];
      } else {
        queuedRequests := [r] + queuedRequests;
      }
    }

    // download: join the request for the url, or take the image from the cache, or
    // make a request; cached is what the image cache has, if it may be used.
    method Download(url: string, receiptID: string, filter: Option<Filter>, cached: Option<Image>)
      returns (request: Option<nat>)
      requires Valid()
      modifies this
      ensures Valid() && nextOperation == old(nextOperation) + 1
      ensures Surplus(requests, activeRequestCount) == old(Surplus(requests, activeRequestCount))
      // Joined.
      ensures url in old(responseHandlers) ==>
        var h := old(responseHandlers)[url];
        var joined := h.(operations := h.operations + [Operation(old(nextOperation), receiptID, filter)]);
        && request == Some(h.request) && requests == old(requests) && fired == old(fired)
        && responseHandlers == old(responseHandlers)[url := joined]
        && queuedRequests == old(queuedRequests) && activeRequestCount == old(activeRequestCount)
        && nextRequest == old(nextRequest)
      // Served.
      ensures url !in old(responseHandlers) && cached.Some? ==>
        && request == None && fired == old(fired) + [Fired(old(nextOperation), Success(cached.value))]
        && requests == old(requests) && responseHandlers == old(responseHandlers)
        && queuedRequests == old(queuedRequests) && activeRequestCount == old(activeRequestCount)
        && nextRequest == old(nextRequest)
      // Requested: started when there is a free slot, else queued.
      ensures url !in old(responseHandlers) && cached.None? ==>
        var r := old(nextRequest);
        && request == Some(r) && nextRequest == r + 1 && fired == old(fired)
        && responseHandlers
            == old(responseHandlers)[url := ResponseHandler(r, r, [Operation(old(nextOperation), receiptID, filter)])]
        && if old(activeRequestCount) < maximumActiveDownloads
           then
             && requests == old(requests)[r := Request(url, r, Running, true, Idle)]
             && activeRequestCount == old(activeRequestCount) + 1
             && queuedRequests == old(queuedRequests)
           else
             && requests == old(requests)[r := Request(url, r, Suspended, false, Idle)]
             && activeRequestCount == old(activeRequestCount)
             && queuedRequests == if fifo then old(queuedRequests) + [r] else [r] + old(queuedRequests)
    {
      var operation := Operation(nextOperation, receiptID, filter);
      if url in responseHandlers {
        request := Some(responseHandlers[url].request);
        Join(url, operation);
      } else if cached.Some? {
        OperationServed(responseHandlers, fired, nextOperation, Fired(nextOperation, Success(cached.value)));
        hide *;
        fired := fired + [Fired(nextOperation, Success(cached.value))];
        nextOperation := nextOperation + 1;
        request := None;
      } else {
        request := Some(nextRequest);
        MakeRequest(url, operation);
      }
    }

    method Join(url: string, operation: Operation)
      requires Valid() && url in responseHandlers && operation.id == nextOperation
      modifies this`responseHandlers, this`nextOperation
      ensures Valid() && nextOperation == old(nextOperation) + 1
      ensures var h := old(responseHandlers)[url];
        responseHandlers == old(responseHandlers)[url := h.(operations := h.operations + [operation])]
    {
      hide OperationsOk;
      hide HandlersOk;
      hide QueueOk;
      hide CountsOk;
      var h := responseHandlers[url];
      var appended := h.(operations := h.operations + [operation]);
      OneMoreOperation(responseHandlers, fired, nextOperation, url, appended, operation);
      SameHandler(requests, responseHandlers, url, appended);
      responseHandlers := responseHandlers[url := appended];
      nextOperation := nextOperation + 1;
    }

    method MakeRequest(url: string, operation: Operation)
      requires Valid() && url !in responseHandlers && operation.id == nextOperation
      modifies this
      ensures Valid() && nextOperation == old(nextOperation) + 1 && nextRequest == old(nextRequest) + 1
      ensures fired == old(fired)
      ensures Surplus(requests, activeRequestCount) == old(Surplus(requests, activeRequestCount))
      ensures responseHandlers
           == old(responseHandlers)[url := ResponseHandler(old(nextRequest), old(nextRequest), [operation])]
      ensures
        var r := old(nextRequest);
        if old(activeRequestCount) < maximumActiveDownloads
        then
          && requests == old(requests)[r := Request(url, r, Running, true, Idle)]
          && activeRequestCount == old(activeRequestCount) + 1
          && queuedRequests == old(queuedRequests)
        else
          && requests == old(requests)[r := Request(url, r, Suspended, false, Idle)]
          && activeRequestCount == old(activeRequestCount)
          && queuedRequests == if fifo then old(queuedRequests) + [r] else [r] + old(queuedRequests)
    {
      hide OperationsOk;
      hide HandlersOk;
      var r := nextRequest;
      var h := ResponseHandler(r, r, [operation]);
      var request := Request(url, r, Suspended, false, Idle);
      OneMoreOperation(responseHandlers, fired, nextOperation, url, h, operation);
      NewRequest(requests, responseHandlers, url, r, request, h);
      NewRequest(requests, responseHandlers, url, r, request.(task := Running, started := true), h);
      var running := request.(task := Running, started := true);
      QueueWith(requests, queuedRequests, r, request);
      QueueWith(requests, queuedRequests, r, running);
      CountsWith(requests, activeRequestCount, maximumActiveDownloads, r,
                 if IsActiveRequestCountBelowMaximumLimit() then running else request);
      hide QueueOk;
      hide CountsOk;
      assert requests[r := request][r := running] == requests[r := running];
      nextRequest := nextRequest + 1;
      nextOperation := nextOperation + 1;
      responseHandlers := responseHandlers[url := h];
      requests := requests[r := request];
      if IsActiveRequestCountBelowMaximumLimit() {
        Start(r);
      } else {
        Enqueue(r);
      }
    }

    // cancelRequest, with a receipt for request r: answer the operation, and drop
    // the request when nobody is left to ask for it and it has not been started.
    method CancelRequest(r: nat, receiptID: string)
      requires Valid() && r in requests
      modifies this`responseHandlers, this`requests, this`fired
      ensures Valid()
      ensures Surplus(requests, activeRequestCount) == old(Surplus(requests, activeRequestCount))
      ensures old(requests[r].url) !in old(responseHandlers) ==>
        responseHandlers == old(responseHandlers) && requests == old(requests) && fired == old(fired)
      ensures old(requests[r].url) in old(responseHandlers) ==>
        var u := old(requests[r].url);
        var h := old(responseHandlers)[u];
        var i := FirstWith(h.operations, receiptID);
        var left := if i < |h.operations| then Without(h.operations, i) else h.operations;
        var dropped := left == [] && old(requests)[r].task.Suspended?;
        && fired == old(fired) + (if i < |h.operations| then [Fired(h.operations[i].id, CancelledResponse)] else [])
        && responseHandlers == (if dropped then old(responseHandlers) - {u}
                                else old(responseHandlers)[u := h.(operations := left)])
        && requests == if dropped then old(requests)[r := old(requests)[r].(task := Cancelled)] else old(requests)
    {
      hide OperationsOk;
      hide HandlersOk;
      hide QueueOk;
      hide CountsOk;
      var urlID := requests[r].url;
      if urlID !in responseHandlers { return; }
      var h := responseHandlers[urlID];
      var index := FirstWith(h.operations, receiptID);
      if index < |h.operations| {
        var left := h.(operations := Without(h.operations, index));
        OperationCancelled(responseHandlers, fired, nextOperation, urlID, index, left);
        SameHandler(requests, responseHandlers, urlID, left);
        fired := fired + [Fired(h.operations[index].id, CancelledResponse)];
        responseHandlers := responseHandlers[urlID := left];
      } else {
        assert responseHandlers[urlID := h] == responseHandlers;
      }
      if responseHandlers[urlID].operations == [] && requests[r].task.Suspended? {
        var cancelled := requests[r].(task := Cancelled);
        TaskOf(requests, responseHandlers, r);
        HandlerGone(requests, responseHandlers, r, cancelled);
        NothingToAnswer(responseHandlers, fired, nextOperation, urlID);
        CountsStay(requests, activeRequestCount, maximumActiveDownloads, r, cancelled);
        QueueStays(requests, queuedRequests, r, cancelled);
        requests := requests[r := cancelled];
        responseHandlers := responseHandlers - {urlID};
      }
    }

    // ----- The answer to a request, block by block -----

    // safelyFetchResponseHandler, and the check that the handler is still the
    // request's own.
    method FetchResponseHandler(r: nat) returns (matched: bool)
      requires Valid() && r in requests && requests[r].phase.Idle?
      requires (requests[r].task.Running? || requests[r].task.Cancelled?)
      modifies this`requests
      ensures Valid() && matched == old(requests)[r].task.Running?
      ensures Surplus(requests, activeRequestCount) == old(Surplus(requests, activeRequestCount))
      ensures requests == old(requests)[r := old(requests)[r].(task := if matched then Completed else Cancelled,
                                                                phase := if matched then Matched else ToDecrement)]
    {
      hide OperationsOk;
      hide QueueOk;
      hide CountsOk;
      var q := requests[r];
      matched := q.url in responseHandlers && responseHandlers[q.url].handlerID == q.handlerID;
      TaskOf(requests, responseHandlers, r);
      assert matched == q.task.Running?;
      hide HandlersOk;
      var answered := q.(task := if q.task.Running? then Completed else Cancelled,
                         phase := if matched then Matched else ToDecrement);
      RequestGoesOn(requests, responseHandlers, r, answered);
      CountsStay(requests, activeRequestCount, maximumActiveDownloads, r, answered);
      QueueStays(requests, queuedRequests, r, answered);
      requests := requests[r := answered];
    }

    // safelyRemoveResponseHandler, and firing the operations of the handler.
    method RemoveResponseHandler(r: nat, result: Response)
      requires Valid() && r in requests && requests[r].phase.Matched?
      modifies this`requests, this`responseHandlers, this`fired
      ensures Valid() && old(requests)[r].url in old(responseHandlers)
      ensures old(responseHandlers)[old(requests)[r].url].request == r
      ensures responseHandlers == old(responseHandlers) - {old(requests)[r].url}
      ensures fired == old(fired) + Answers(old(responseHandlers)[old(requests)[r].url].operations, result)
      // One completion for each operation, in order, telling it the result.
      ensures
        var ops, n := old(responseHandlers)[old(requests)[r].url].operations, |old(fired)|;
        && |fired| == n + |ops| && fired[..n] == old(fired)
        && var told := fired[n..];
           forall i :: 0 <= i < |ops| ==> ToldOf(ops, i, result, told[i])
      ensures requests == old(requests)[r := old(requests)[r].(phase := ToDecrement)]
      ensures Surplus(requests, activeRequestCount) == old(Surplus(requests, activeRequestCount))
    {
      hide OperationsOk;
      hide QueueOk;
      hide CountsOk;
      var q := requests[r];
      TaskOf(requests, responseHandlers, r);
      assert InPlace(requests, responseHandlers, r);
      hide HandlersOk;
      var responseHandler := responseHandlers[q.url];
      var left := q.(phase := ToDecrement);
      HandlerGone(requests, responseHandlers, r, left);
      HandlerAnswered(responseHandlers, fired, nextOperation, q.url, result);
      CountsStay(requests, activeRequestCount, maximumActiveDownloads, r, left);
      QueueStays(requests, queuedRequests, r, left);
      var answers := Answer(responseHandler.operations, result);
      hide ToldOf;
      requests := requests[r := left];
      responseHandlers := responseHandlers - {q.url};
      fired := fired + answers;
    }

    // safelyDecrementActiveRequestCount
    method DecrementActiveRequestCount(r: nat)
      requires Valid() && r in requests && requests[r].phase.ToDecrement?
      modifies this`requests, this`activeRequestCount
      ensures Valid() && requests == old(requests)[r := old(requests)[r].(phase := ToStartNext)]
      ensures activeRequestCount == if old(activeRequestCount) > 0 then old(activeRequestCount) - 1 else 0
      // The count falls behind by a request that was cancelled before it started.
      ensures Surplus(requests, activeRequestCount) == old(Surplus(requests, activeRequestCount))
                + (if old(activeRequestCount) > 0 then 1 else 0) - (if old(requests)[r].started then 1 else 0)
    {
      hide OperationsOk;
      hide QueueOk;
      hide CountsOk;
      var q := requests[r];
      TaskOf(requests, responseHandlers, r);
      hide HandlersOk;
      var next := q.(phase := ToStartNext);
      RequestGoesOn(requests, responseHandlers, r, next);
      CountsDecremented(requests, activeRequestCount, maximumActiveDownloads, r, next);
      QueueStays(requests, queuedRequests, r, next);
      requests := requests[r := next];
      if activeRequestCount > 0 {
        activeRequestCount := activeRequestCount - 1;
      }
    }

    // safelyStartNextRequestIfNecessary: requests cancelled in the queue are passed over.
    method StartNextRequestIfNecessary(r: nat)
      requires Valid() && r in requests && requests[r].phase.ToStartNext?
      modifies this`requests, this`activeRequestCount, this`queuedRequests
      ensures Valid()
      ensures Surplus(requests, activeRequestCount) == old(Surplus(requests, activeRequestCount))
      ensures
        var was := old(requests)[r := old(requests)[r].(phase := Done)];
        var i := FirstStartable(old(requests), old(queuedRequests));
        if old(activeRequestCount) >= maximumActiveDownloads
        then requests == was && activeRequestCount == old(activeRequestCount) && queuedRequests == old(queuedRequests)
        else if i == |old(queuedRequests)|
        then requests == was && activeRequestCount == old(activeRequestCount) && queuedRequests == []
        else
          var next := old(queuedRequests)[i];
          && requests == was[next := was[next].(task := Running, started := true)]
          && activeRequestCount == old(activeRequestCount) + 1 && queuedRequests == old(queuedRequests)[i + 1..]
    {
      hide OperationsOk;
      hide QueueOk;
      hide CountsOk;
      hide Started;
      hide FirstStartable;
      hide Surplus;
      var q := requests[r].(phase := Done);
      TaskOf(requests, responseHandlers, r);
      RequestGoesOn(requests, responseHandlers, r, q);
      QueueStays(requests, queuedRequests, r, q);
      CountsDone(requests, activeRequestCount, maximumActiveDownloads, r, q, queuedRequests);
      SameStartable(requests, r, q, queuedRequests);
      hide HandlersOk;
      ghost var before, queue := requests, queuedRequests;
      requests := requests[r := q];
      if IsActiveRequestCountBelowMaximumLimit() {
        var found, request := DequeueStartable();
        if found {
          StartFromQueue(before, queue, responseHandlers, activeRequestCount, maximumActiveDownloads, r, q,
                         FirstStartable(before, queue));
          Start(request);
        } else {
          NothingToStart(before, queue, activeRequestCount, maximumActiveDownloads, r, q);
        }
      }
    }

    // The loop that dequeues requests until one can be started.
    method DequeueStartable() returns (found: bool, request: nat)
      modifies this`queuedRequests
      ensures var i := FirstStartable(requests, old(queuedRequests));
        && found == (i < |old(queuedRequests)|)
        && (found ==> request == old(queuedRequests)[i])
        && queuedRequests == if found then old(queuedRequests)[i + 1..] else []
    {
      ghost var queue := queuedRequests;
      ghost var i := 0;
      request := 0;
      while queuedRequests != []
        invariant 0 <= i <= |queue| && queuedRequests == queue[i..]
        invariant i <= FirstStartable(requests, queue)
      {
        request := queuedRequests[0];
        queuedRequests := queuedRequests[1..];
        if request in requests && requests[request].task.Suspended? {
          return true, request;
        }
        i := i + 1;
      }
      return false, request;
    }
  }

  // A request that was cancelled in the queue gives away a slot it never had: with
  // all slots taken, counting it down lets one more download start.
  method FreedSlotIsTakenAgain(d: ImageDownloader, r: nat, url: string, receiptID: string)
    requires d.Valid() && r in d.requests && d.requests[r].task.Cancelled? && d.requests[r].phase.ToDecrement?
    requires d.activeRequestCount == d.maximumActiveDownloads > 0 && url !in d.responseHandlers
    modifies d
    ensures d.Valid() && |Started(d.requests)| > d.maximumActiveDownloads == d.activeRequestCount
  {
    hide QueueOk;
    hide OperationsOk;
    TaskOf(d.requests, d.responseHandlers, r);
    hide HandlersOk;
    hide Started;
    d.DecrementActiveRequestCount(r);
    var request := d.Download(url, receiptID, None, None);
  }

  // The shortest such run.
  method MoreThanAllowed() returns (d: ImageDownloader)
    ensures fresh(d) && d.Valid() && d.maximumActiveDownloads == 1 && |Started(d.requests)| == 2
  {
    hide HandlersOk;
    hide QueueOk;
    hide OperationsOk;
    hide CountsOk;
    hide Started;
    hide FirstStartable;
    d := new ImageDownloader(1, true);
    NoneStarted();
    var a := d.Download("a", "1", None, None);
    var b := d.Download("b", "2", None, None);
    var ops := d.responseHandlers["b"].operations;
    assert Without(ops, FirstWith(ops, "2")) == [];
    d.CancelRequest(1, "2");
    var matched := d.FetchResponseHandler(1);
    d.DecrementActiveRequestCount(1);
    d.StartNextRequestIfNecessary(1);
    var c := d.Download("c", "3", None, None);
  }

  lemma NoneStarted()
    ensures Started(map[]) == {}
  {
  }

  // Nothing is stuck: while a request can be started and slots exist at all, a
  // start-next step or a download under way is still to come.
  lemma WorkGoesOn(requests: Requests, active: nat, maximum: nat)
    requires CountsOk(requests, active, maximum) && Startable(requests) && maximum > 0
    ensures StartNextSteps(requests) != {} || Started(requests) != {}
  {
    if active == 0 {
      assert |StartNextSteps(requests)| > 0;
    } else {
      assert |Started(requests)| > 0;
    }
  }
}
