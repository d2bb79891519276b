/** The order store as a value: the table of orders keyed by id and the next
    id to hand out, and the effect of each of the four order operations on it.
    These functions are the specification the class `Service.OrderStore` is
    proved against. */
module Lifecycle {
  import opened PyStrings
  import opened Orders

  datatype StoreState = StoreState(orders: map<int, Order>, nextId: int)

  /** What an operation leaves behind: the new store and the caller's answer. */
  datatype Outcome<T> = Outcome(store: StoreState, result: Result<T>)

  /** The store at process start: empty table, first id 1. */
  function Init(): (s: StoreState)
    ensures s.orders == map[] && s.nextId == 1
  {
    StoreState(map[], 1)
  }

  /** Every key was handed out by the counter and names its own order. */
  ghost predicate WellKeyed(s: StoreState) {
    && s.nextId >= 1
    && forall k :: k in s.orders ==> 1 <= k < s.nextId && s.orders[k].id == k
  }

  /** Every stored order carries the creation label. */
  ghost predicate AllInProgress(s: StoreState) {
    forall k :: k in s.orders ==> s.orders[k].status == IN_PROGRESS
  }

  ghost predicate Valid(s: StoreState) {
    WellKeyed(s) && AllInProgress(s)
  }

  /** Order creation: validate the name, store a new in-progress order under
      the current counter value, then advance the counter by one. */
  function Create(s: StoreState, customerName: string, items: seq<string>, now: DateTime): (o: Outcome<Order>)
    ensures o.result.Ok? <==> |Strip(customerName)| >= 2
    ensures o.result.Err? ==> o.result.error == ValidationError && o.store == s
    ensures o.result.Ok? ==>
      var ord := o.result.value;
      && ord == Order(s.nextId, Strip(customerName), items, IN_PROGRESS, now)
      && o.store.nextId == s.nextId + 1
      && o.store.orders.Keys == s.orders.Keys + {s.nextId}
      && o.store.orders[s.nextId] == ord
      && (forall k :: k in s.orders && k != s.nextId ==> o.store.orders[k] == s.orders[k])
    ensures Valid(s) ==> Valid(o.store)
    ensures Valid(s) && o.result.Ok? ==>
      && o.result.value.id !in s.orders
      && (forall k :: k in s.orders ==> k < o.result.value.id)
  {
    match ValidateName(customerName)
    case Err(e) => Outcome(s, Err(e))
    case Ok(name) =>
      var ord := Order(s.nextId, name, items, IN_PROGRESS, now);
      Outcome(StoreState(s.orders[s.nextId := ord], s.nextId + 1), Ok(ord))
  }

  /** Order lookup: the stored record, or `NotFound`. */
  function Get(s: StoreState, id: int): (r: Result<Order>)
    ensures r.Ok? <==> id in s.orders
    ensures r.Err? ==> r.error == NotFound
    ensures r.Ok? ==> r.value == s.orders[id]
  {
    if id !in s.orders then Err(NotFound) else Ok(s.orders[id])
  }

  /** Item replacement: `NotFound` for an absent id, `InvalidState` unless the
      order is in progress, otherwise only that order's items change. */
  function Update(s: StoreState, id: int, newItems: seq<string>): (o: Outcome<Order>)
    ensures o.result.Err? ==> o.store == s
    ensures id !in s.orders <==> o.result == Err(NotFound)
    ensures id in s.orders && s.orders[id].status != IN_PROGRESS <==> o.result == Err(InvalidState)
    ensures id in s.orders && s.orders[id].status == IN_PROGRESS ==> o.result.Ok?
    ensures o.result.Ok? ==>
      && id in s.orders
      && o.result.value == s.orders[id].(items := newItems)
      && o.store.nextId == s.nextId
      && o.store.orders.Keys == s.orders.Keys
      && o.store.orders[id] == o.result.value
      && (forall k :: k in s.orders && k != id ==> o.store.orders[k] == s.orders[k])
    ensures Valid(s) ==> Valid(o.store)
    ensures Valid(s) && id in s.orders ==> o.result.Ok?
  {
    if id !in s.orders then Outcome(s, Err(NotFound))
    else
      var ord := s.orders[id];
      if ord.status != IN_PROGRESS then Outcome(s, Err(InvalidState))
      else
        var updated := ord.(items := newItems);
        Outcome(s.(orders := s.orders[id := updated]), Ok(updated))
  }

  /** Cancellation: `NotFound` for an absent id, `InvalidState` when the order
      carries the ready label, otherwise the entry is deleted outright. The
      answer on success is the cancelled id. */
  function Cancel(s: StoreState, id: int): (o: Outcome<int>)
    ensures o.result.Err? ==> o.store == s
    ensures id !in s.orders <==> o.result == Err(NotFound)
    ensures id in s.orders && s.orders[id].status == READY <==> o.result == Err(InvalidState)
    ensures id in s.orders && s.orders[id].status != READY ==> o.result.Ok?
    ensures o.result.Ok? ==>
      && o.result.value == id
      && o.store.nextId == s.nextId
      && o.store.orders.Keys == s.orders.Keys - {id}
      && (forall k :: k in o.store.orders ==> o.store.orders[k] == s.orders[k])
    ensures Valid(s) ==> Valid(o.store)
    ensures Valid(s) && id in s.orders ==> o.result.Ok?
  {
    if id !in s.orders then Outcome(s, Err(NotFound))
    else if s.orders[id].status == READY then Outcome(s, Err(InvalidState))
    else Outcome(s.(orders := s.orders - {id}), Ok(id))
  }

  lemma InitValid()
    ensures Valid(Init())
  {
  }

  /** Reading back a freshly created order gives the created record. */
  lemma GetAfterCreate(s: StoreState, customerName: string, items: seq<string>, now: DateTime)
    requires Create(s, customerName, items, now).result.Ok?
    ensures
      var o := Create(s, customerName, items, now);
      Get(o.store, o.result.value.id) == Ok(o.result.value)
  {
  }

  /** After a successful cancel the id is gone. */
  lemma GetAfterCancel(s: StoreState, id: int)
    requires Cancel(s, id).result.Ok?
    ensures Get(Cancel(s, id).store, id) == Err(NotFound)
  {
  }

  /** Reading the record back after an update gives the updated record. */
  lemma GetAfterUpdate(s: StoreState, id: int, newItems: seq<string>)
    requires Update(s, id, newItems).result.Ok?
    ensures Get(Update(s, id, newItems).store, id) == Update(s, id, newItems).result
    ensures Get(Update(s, id, newItems).store, id).value.items == newItems
  {
  }

  /** Two creations in a row hand out consecutive ids, the second larger than
      every id stored before it. */
  lemma CreateTwice(s: StoreState, n1: string, i1: seq<string>, t1: DateTime,
                    n2: string, i2: seq<string>, t2: DateTime)
    requires Valid(s)
    requires Create(s, n1, i1, t1).result.Ok?
    requires Create(Create(s, n1, i1, t1).store, n2, i2, t2).result.Ok?
    ensures
      var o1 := Create(s, n1, i1, t1);
      var o2 := Create(o1.store, n2, i2, t2);
      && o2.result.value.id == o1.result.value.id + 1
      && (forall k :: k in o1.store.orders ==> k < o2.result.value.id)
  {
  }

  /** The update guard and the cancel guard test different labels. An order
      holding the response-wrapper label (which no operation ever stores) can
      be cancelled but not updated; one holding the ready label can be
      neither. */
  lemma GuardsDisagree(s: StoreState, id: int, newItems: seq<string>)
    requires id in s.orders
    ensures s.orders[id].status == CREATE_RESPONSE_STATUS ==>
      Update(s, id, newItems).result == Err(InvalidState) && Cancel(s, id).result.Ok?
    ensures s.orders[id].status == READY ==>
      Update(s, id, newItems).result == Err(InvalidState) && Cancel(s, id).result == Err(InvalidState)
  {
    StatusLabelsDistinct();
  }
}
