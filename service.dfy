/** The process-wide order table and id counter as one object whose methods
    update them in place, proved against the value-level operations of
    `Lifecycle`. */
module Service {
  import opened Orders
  import opened Lifecycle

  class OrderStore {
    var orders: map<int, Order>
    var nextId: int

    function State(): StoreState
      reads this
    {
      StoreState(orders, nextId)
    }

    ghost predicate Valid()
      reads this
    {
      Lifecycle.Valid(State())
    }

    /** The table starts empty and the first id is 1. */
    constructor ()
      ensures State() == Init()
      ensures Valid()
    {
      orders := map[];
      nextId := 1;
    }

    /** Lookup: the stored record, or `NotFound`; nothing is changed. */
    function GetOrder(id: int): (r: Result<Order>)
      reads this
      ensures r.Ok? <==> id in orders
      ensures r.Err? ==> r.error == NotFound
      ensures r.Ok? ==> r.value == orders[id]
    {
      Get(State(), id)
    }

    method CreateOrder(customerName: string, items: seq<string>, now: DateTime) returns (r: Result<Order>)
      modifies this
      ensures State() == Create(old(State()), customerName, items, now).store
      ensures r == Create(old(State()), customerName, items, now).result
      ensures old(Valid()) ==> Valid()
    {
      var name := ValidateName(customerName);
      if name.Err? {
        return Err(name.error);
      }
      var order := Order(nextId, name.value, items, IN_PROGRESS, now);
      orders := orders[nextId := order];
      nextId := nextId + 1;
      r := Ok(order);
    }

    method UpdateOrder(id: int, newItems: seq<string>) returns (r: Result<Order>)
      modifies this
      ensures State() == Update(old(State()), id, newItems).store
      ensures r == Update(old(State()), id, newItems).result
      ensures old(Valid()) ==> Valid()
      ensures old(Valid()) && id in old(orders) ==> r.Ok?
    {
      if id !in orders {
        return Err(NotFound);
      }
      var order := orders[id];
      if order.status != IN_PROGRESS {
        return Err(InvalidState);
      }
      order := order.(items := newItems);
      orders := orders[id := order];
      r := Ok(order);
    }

    method CancelOrder(id: int) returns (r: Result<int>)
      modifies this
      ensures State() == Cancel(old(State()), id).store
      ensures r == Cancel(old(State()), id).result
      ensures old(Valid()) ==> Valid()
      ensures old(Valid()) && id in old(orders) ==> r.Ok?
    {
      if id !in orders {
        return Err(NotFound);
      }
      var order := orders[id];
      if order.status == READY {
        return Err(InvalidState);
      }
      orders := orders - {id};
      r := Ok(id);
    }
  }

  /** A client of the object: a session of create, lookup, update, cancel and
      a refused creation, with every answer following from the method
      contracts alone. */
  method ClientScenario(t1: DateTime, t2: DateTime) returns (store: OrderStore)
    ensures fresh(store)
    ensures store.orders == map[] && store.nextId == 2
    ensures store.Valid()
  {
    store := new OrderStore();
    ValidateNameExample();
    var created := store.CreateOrder(" An ", ["հավով"], t1);
    assert created == Ok(Order(1, "An", ["հավով"], IN_PROGRESS, t1));
    assert store.GetOrder(1) == created;
    var updated := store.UpdateOrder(1, ["տավարով", "հատուկ"]);
    assert updated.Ok? && updated.value.items == ["տավարով", "հատուկ"];
    var cancelled := store.CancelOrder(1);
    assert cancelled == Ok(1);
    assert store.GetOrder(1) == Err(NotFound);
    var again := store.CancelOrder(1);
    assert again == Err(NotFound);
    var rejected := store.CreateOrder(" \t", [], t2);
    assert rejected == Err(ValidationError);
  }
}
