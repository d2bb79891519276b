/** Sequences of requests served one after another from the initial store:
    what holds of every reachable store and of the ids handed out. */
module History {
  import opened Orders
  import opened Lifecycle

  datatype Request =
    | CreateRequest(customerName: string, items: seq<string>, now: DateTime)
    | GetRequest(id: int)
    | UpdateRequest(id: int, newItems: seq<string>)
    | CancelRequest(id: int)

  /** The store after serving one request: the counter moves by at most one,
      the only key that can appear is the old counter value, and the store
      invariant is kept. */
  function Step(s: StoreState, req: Request): (r: StoreState)
    ensures s.nextId <= r.nextId <= s.nextId + 1
    ensures forall k :: k in r.orders && k !in s.orders ==> k == s.nextId
    ensures Valid(s) ==> Valid(r)
  {
    match req
    case CreateRequest(name, items, now) => Create(s, name, items, now).store
    case GetRequest(_) => s
    case UpdateRequest(id, items) => Update(s, id, items).store
    case CancelRequest(id) => Cancel(s, id).store
  }

  /** The store after serving `reqs` in order: the counter never goes back,
      and every key that was not there before lies between the old and the
      new counter value. */
  function Run(s: StoreState, reqs: seq<Request>): (r: StoreState)
    ensures s.nextId <= r.nextId
    ensures forall k :: k in r.orders && k !in s.orders ==> s.nextId <= k < r.nextId
    decreases |reqs|
  {
    if reqs == [] then s else Run(Step(s, reqs[0]), reqs[1..])
  }

  /** The id that serving `req` hands out: one when it is a successful
      creation, none otherwise. */
  function IssuedBy(s: StoreState, req: Request): seq<int> {
    match req
    case CreateRequest(name, items, now) =>
      var o := Create(s, name, items, now);
      if o.result.Ok? then [o.result.value.id] else []
    case _ => []
  }

  /** The ids that the successful creations among `reqs` return, in order. */
  function IssuedIds(s: StoreState, reqs: seq<Request>): seq<int>
    decreases |reqs|
  {
    if reqs == [] then [] else IssuedBy(s, reqs[0]) + IssuedIds(Step(s, reqs[0]), reqs[1..])
  }

  /** One request advances the counter by the number of ids it hands out,
      and the id it hands out is the old counter value. */
  lemma StepIssues(s: StoreState, req: Request)
    ensures |IssuedBy(s, req)| <= 1
    ensures Step(s, req).nextId == s.nextId + |IssuedBy(s, req)|
    ensures |IssuedBy(s, req)| == 1 ==> IssuedBy(s, req)[0] == s.nextId
  {
  }

  ghost predicate Reachable(s: StoreState) {
    exists reqs: seq<Request> :: Run(Init(), reqs) == s
  }

  /** Every operation keeps the store valid, so every reachable store is. */
  lemma {:induction false} RunValid(s: StoreState, reqs: seq<Request>)
    requires Valid(s)
    ensures Valid(Run(s, reqs))
    decreases |reqs|
  {
    if reqs != [] {
      RunValid(Step(s, reqs[0]), reqs[1..]);
    }
  }

  /** The counter never goes back, and the creations hand out exactly the ids
      from the old counter value up to the new one, each once, in order: no
      id is skipped and none is issued twice. */
  lemma {:induction false} IssuedIdsConsecutive(s: StoreState, reqs: seq<Request>)
    ensures Run(s, reqs).nextId == s.nextId + |IssuedIds(s, reqs)|
    ensures forall i :: 0 <= i < |IssuedIds(s, reqs)| ==> IssuedIds(s, reqs)[i] == s.nextId + i
    decreases |reqs|
  {
    if reqs != [] {
      var s' := Step(s, reqs[0]);
      StepIssues(s, reqs[0]);
      IssuedIdsConsecutive(s', reqs[1..]);
      var head, tail := IssuedBy(s, reqs[0]), IssuedIds(s', reqs[1..]);
      assert IssuedIds(s, reqs) == head + tail;
      forall i | 0 <= i < |head + tail| ensures (head + tail)[i] == s.nextId + i {
        if i >= |head| { assert (head + tail)[i] == tail[i - |head|]; }
      }
    }
  }

  /** From process start the ids returned by creations are 1, 2, 3, … and
      strictly increasing, so a cancelled order's id is never handed out again. */
  lemma IdsNeverReused(reqs: seq<Request>)
    ensures forall i :: 0 <= i < |IssuedIds(Init(), reqs)| ==> IssuedIds(Init(), reqs)[i] == i + 1
    ensures forall i, j :: 0 <= i < j < |IssuedIds(Init(), reqs)| ==>
      IssuedIds(Init(), reqs)[i] < IssuedIds(Init(), reqs)[j]
  {
    IssuedIdsConsecutive(Init(), reqs);
  }

  /** A store reachable from process start satisfies the key and status
      invariants. */
  lemma ReachableIsValid(s: StoreState)
    requires Reachable(s)
    ensures Valid(s)
  {
    var reqs :| Run(Init(), reqs) == s;
    InitValid();
    RunValid(Init(), reqs);
  }

  /** Every key in a reachable store is an id some creation returned. */
  lemma StoredIdsWereIssued(reqs: seq<Request>, k: int)
    requires k in Run(Init(), reqs).orders
    ensures k in IssuedIds(Init(), reqs)
  {
    InitValid();
    RunValid(Init(), reqs);
    IssuedIdsConsecutive(Init(), reqs);
    assert IssuedIds(Init(), reqs)[k - 1] == k;
  }

  /** In every reachable store each order is in progress, so neither the
      update guard nor the cancel guard ever rejects a present id. */
  lemma GuardsNeverFire(reqs: seq<Request>, id: int, newItems: seq<string>)
    requires id in Run(Init(), reqs).orders
    ensures Run(Init(), reqs).orders[id].status == IN_PROGRESS
    ensures Update(Run(Init(), reqs), id, newItems).result.Ok?
    ensures Cancel(Run(Init(), reqs), id).result.Ok?
  {
    InitValid();
    RunValid(Init(), reqs);
  }

  /** Lookups change nothing: a run of lookups leaves the store as it was. */
  lemma {:induction false} LookupsChangeNothing(s: StoreState, reqs: seq<Request>)
    requires forall i :: 0 <= i < |reqs| ==> reqs[i].GetRequest?
    ensures Run(s, reqs) == s
    decreases |reqs|
  {
    if reqs != [] {
      LookupsChangeNothing(s, reqs[1..]);
    }
  }

  /** The create / get / cancel / get / create scenario from process start. */
  lemma Scenario(t1: DateTime, t2: DateTime)
    ensures
      var o1 := Create(Init(), " An ", ["հավով"], t1);
      var o2 := Cancel(o1.store, 1);
      var o3 := Create(o2.store, "Ani", [], t2);
      && o1.result == Ok(Order(1, "An", ["հավով"], IN_PROGRESS, t1))
      && Get(o1.store, 1) == o1.result
      && o2.result == Ok(1)
      && Get(o2.store, 1) == Err(NotFound)
      && o3.result.Ok? && o3.result.value.id == 2
  {
    ValidateNameExample();
    PyStrings.StripPadded([], "Ani", []);
    assert [] + "Ani" + [] == "Ani";
  }
}
