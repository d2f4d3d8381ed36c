/**
 * The order table behind OrderServiceImpl, as values: the repository's
 * not-found rule, what save does to an order (identity generation for the
 * order and for its new lines), and, for every service command, the reply
 * and the table it leaves. The class in module OrderService is proved to
 * follow these functions; the table invariant is proved here.
 */
module OrderStore {
  import opened Wrappers
  import opened OrderStatuses
  import opened OrderRules

  const ORDER_ENTITY := "Order"
  const PRODUCT_ENTITY := "Product"

  /** The orders table, keyed by order id, with the two identity generators (orders, order lines). */
  datatype Table = Table(orders: map<int, OrderView>, nextOrderId: int, nextItemId: int)

  /** What a command reports and the table it leaves. */
  datatype Reply = Reply(outcome: Outcome, table: Table)

  /** What createOrder reports (the new order's id) and the table it leaves. */
  datatype Created = Created(result: Result<int>, table: Table)

  /** A product as the order service sees it: the active flag its repository filters on, and its price. */
  datatype ProductRow = ProductRow(active: bool, price: int)

  // ---- save: generated ids for new lines ----

  /** The number of lines that have no id yet. */
  function Unsaved(lines: seq<LineView>): nat
    decreases |lines|
  {
    if lines == [] then 0
    else Unsaved(lines[..|lines| - 1]) + (if lines[|lines| - 1].id.None? then 1 else 0)
  }

  /** The lines after save: each line without an id gets the next generated one, in list order. */
  function AssignIds(lines: seq<LineView>, next: int): (r: seq<LineView>)
    ensures |r| == |lines|
    decreases |lines|
  {
    if lines == [] then []
    else
      var init := lines[..|lines| - 1];
      var last := lines[|lines| - 1];
      AssignIds(init, next) + [if last.id.None? then last.(id := Some(next + Unsaved(init))) else last]
  }

  /** Every id in the lines is below n. */
  predicate IdsBelow(lines: seq<LineView>, n: int) {
    forall i :: 0 <= i < |lines| && lines[i].id.Some? ==> lines[i].id.value < n
  }

  /** Two line lists that differ at most in their ids. */
  predicate SameButIds(a: seq<LineView>, b: seq<LineView>) {
    |a| == |b| && forall i :: 0 <= i < |a| ==> a[i] == b[i].(id := a[i].id)
  }

  /**
   * The table invariant: every key was generated, every stored order is
   * well formed and saved, and every line id was generated.
   */
  predicate TableValid(t: Table) {
    forall k :: k in t.orders ==>
      k < t.nextOrderId && WellFormed(t.orders[k]) && AllSaved(t.orders[k].lines)
      && IdsBelow(t.orders[k].lines, t.nextItemId)
  }

  /** save(order): the order is stored under its key with ids for its new lines. */
  function Save(t: Table, id: int, v: OrderView): (r: Table)
    ensures r.orders.Keys == t.orders.Keys + {id}
    ensures r.orders[id].lines == AssignIds(v.lines, t.nextItemId)
    ensures r.orders[id] == v.(lines := r.orders[id].lines)
    ensures forall k :: k in t.orders && k != id ==> r.orders[k] == t.orders[k]
    ensures r.nextOrderId == t.nextOrderId && r.nextItemId == t.nextItemId + Unsaved(v.lines)
  {
    t.(orders := t.orders[id := v.(lines := AssignIds(v.lines, t.nextItemId))], nextItemId := t.nextItemId + Unsaved(v.lines))
  }

  // ---- the service commands ----

  /** getById: the stored order, or NotFound naming the entity and the id. */
  function GetById(t: Table, id: int): (r: Result<OrderView>)
    ensures r.Success? <==> id in t.orders
    ensures r.Success? ==> r.value == t.orders[id]
    ensures r.Failure? ==> r.error == NotFound(ORDER_ENTITY, id)
  {
    if id in t.orders then Success(t.orders[id]) else Failure(NotFound(ORDER_ENTITY, id))
  }

  /**
   * A command on one order: load it (NotFound before anything else), apply
   * one Order method, and save only if that method did not throw.
   */
  function Command(t: Table, id: int, a: Action): (r: Reply)
    ensures id !in t.orders ==> r == Reply(Fail(NotFound(ORDER_ENTITY, id)), t)
    ensures r.outcome.Fail? ==> r.table == t
    ensures r.table.orders.Keys == t.orders.Keys && r.table.nextOrderId == t.nextOrderId
    ensures forall k :: k in t.orders && k != id ==> r.table.orders[k] == t.orders[k]
    ensures id in t.orders ==> r.outcome == Apply(t.orders[id], a).outcome
  {
    match GetById(t, id)
    case Failure(e) => Reply(Fail(e), t)
    case Success(v) =>
      var s := Apply(v, a);
      if s.outcome.Fail? then Reply(s.outcome, t) else Reply(Pass, Save(t, id, s.view))
  }

  /** createOrder(customer, notes): a new PENDING order, saved under the next order id. */
  function CreateOrder(t: Table, customer: Option<int>, notes: Option<string>): (r: Created)
    ensures customer.None? ==> r == Created(Failure(IllegalArgument(CUSTOMER_NULL)), t)
    ensures customer.Some? ==>
              r.result == Success(t.nextOrderId) && r.table.nextOrderId == t.nextOrderId + 1
              && r.table.orders == t.orders[t.nextOrderId := OrderView(customer.value, PENDING, [], 0, notes)]
  {
    if customer.None? then Created(Failure(IllegalArgument(CUSTOMER_NULL)), t)
    else
      var id := t.nextOrderId;
      var saved := Save(t, id, OrderView(customer.value, PENDING, [], 0, notes));
      Created(Success(id), saved.(nextOrderId := id + 1))
  }

  /**
   * addItemToOrder(orderId, productId, quantity): the order is loaded first,
   * then the active product, whose current price becomes the unit price.
   */
  function AddItemById(t: Table, orderId: int, productId: int, quantity: int, products: map<int, ProductRow>): (r: Reply)
    ensures orderId !in t.orders ==> r == Reply(Fail(NotFound(ORDER_ENTITY, orderId)), t)
    ensures orderId in t.orders && (productId !in products || !products[productId].active) ==>
              r == Reply(Fail(NotFound(PRODUCT_ENTITY, productId)), t)
    ensures orderId in t.orders && productId in products && products[productId].active ==>
              r == Command(t, orderId, AddItemAction(Some(productId), quantity, Some(products[productId].price)))
  {
    if orderId !in t.orders then Reply(Fail(NotFound(ORDER_ENTITY, orderId)), t)
    else if productId !in products || !products[productId].active then Reply(Fail(NotFound(PRODUCT_ENTITY, productId)), t)
    else Command(t, orderId, AddItemAction(Some(productId), quantity, Some(products[productId].price)))
  }

  /** deleteOrder: NotFound, or the order is gone whatever its status; nothing else changes. */
  function DeleteOrder(t: Table, id: int): (r: Reply)
    ensures id !in t.orders <==> r.outcome.Fail?
    ensures id !in t.orders ==> r == Reply(Fail(NotFound(ORDER_ENTITY, id)), t)
    ensures r.table.orders.Keys == t.orders.Keys - {id}
    ensures forall k :: k in r.table.orders ==> r.table.orders[k] == t.orders[k]
  {
    if id !in t.orders then Reply(Fail(NotFound(ORDER_ENTITY, id)), t)
    else Reply(Pass, t.(orders := t.orders - {id}))
  }

  // ---- what save guarantees ----

  /** After save no line lacks an id. */
  lemma {:induction false} AssignIdsSavesAll(lines: seq<LineView>, next: int)
    ensures AllSaved(AssignIds(lines, next))
    decreases |lines|
  {
    if lines != [] {
      var init := lines[..|lines| - 1];
      AssignIdsSavesAll(init, next);
      var r := AssignIds(lines, next);
      forall i | 0 <= i < |r|
        ensures r[i].id.Some?
      {
        if i < |init| {
          assert r[i] == AssignIds(init, next)[i];
        }
      }
    }
  }

  /** Save changes ids only: lines that had one keep it, and no other field moves. */
  lemma {:induction false} AssignIdsOnlyIds(lines: seq<LineView>, next: int)
    ensures SameButIds(lines, AssignIds(lines, next))
    ensures forall i :: 0 <= i < |lines| && lines[i].id.Some? ==> AssignIds(lines, next)[i] == lines[i]
    decreases |lines|
  {
    if lines != [] {
      var init := lines[..|lines| - 1];
      AssignIdsOnlyIds(init, next);
      var r := AssignIds(lines, next);
      forall i | 0 <= i < |lines|
        ensures lines[i] == r[i].(id := lines[i].id)
        ensures lines[i].id.Some? ==> r[i] == lines[i]
      {
        if i < |init| {
          assert r[i] == AssignIds(init, next)[i];
          assert lines[i] == init[i];
        }
      }
    }
  }

  /** The generated ids lie in [next, next + Unsaved): a table whose ids are below next stays below the new bound. */
  lemma {:induction false} AssignIdsFresh(lines: seq<LineView>, next: int)
    ensures forall i :: 0 <= i < |lines| && lines[i].id.None? ==>
              AssignIds(lines, next)[i].id.Some? && next <= AssignIds(lines, next)[i].id.value < next + Unsaved(lines)
    ensures IdsBelow(lines, next) ==> IdsBelow(AssignIds(lines, next), next + Unsaved(lines))
    decreases |lines|
  {
    if lines != [] {
      var init := lines[..|lines| - 1];
      AssignIdsFresh(init, next);
      AssignIdsOnlyIds(init, next);
      var r := AssignIds(lines, next);
      forall i | 0 <= i < |lines| && lines[i].id.None?
        ensures r[i].id.Some? && next <= r[i].id.value < next + Unsaved(lines)
      {
        if i < |init| {
          assert r[i] == AssignIds(init, next)[i];
          assert lines[i] == init[i];
        }
      }
      if IdsBelow(lines, next) {
        forall i | 0 <= i < |r| && r[i].id.Some?
          ensures r[i].id.value < next + Unsaved(lines)
        {
          if i < |init| {
            assert r[i] == AssignIds(init, next)[i];
            assert lines[i] == init[i];
          }
        }
      }
    }
  }

  /** Line sums do not look at ids. */
  lemma {:induction false} SumTotalsIgnoresIds(a: seq<LineView>, b: seq<LineView>)
    requires SameButIds(a, b)
    ensures SumTotals(a) == SumTotals(b)
    decreases |a|
  {
    if a != [] {
      SumTotalsIgnoresIds(a[..|a| - 1], b[..|b| - 1]);
    }
  }

  /** The aggregate invariant does not look at ids either. */
  lemma WellFormedIgnoresIds(v: OrderView, lines: seq<LineView>)
    requires WellFormed(v) && SameButIds(v.lines, lines)
    ensures WellFormed(v.(lines := lines))
  {
    SumTotalsIgnoresIds(v.lines, lines);
  }

  /** Saving a well-formed order keeps the table invariant. */
  lemma SaveKeepsTableValid(t: Table, id: int, v: OrderView)
    requires TableValid(t) && id < t.nextOrderId && WellFormed(v) && IdsBelow(v.lines, t.nextItemId)
    ensures TableValid(Save(t, id, v))
  {
    var r := Save(t, id, v);
    AssignIdsSavesAll(v.lines, t.nextItemId);
    AssignIdsOnlyIds(v.lines, t.nextItemId);
    AssignIdsFresh(v.lines, t.nextItemId);
    WellFormedIgnoresIds(v, r.orders[id].lines);
    forall k | k in r.orders && k != id
      ensures IdsBelow(r.orders[k].lines, r.nextItemId)
    {
      assert IdsBelow(t.orders[k].lines, t.nextItemId);
    }
  }

  /** Line ids a mutator leaves are ids the order already had, so they stay below the generator. */
  lemma ApplyKeepsIdsBelow(v: OrderView, a: Action, n: int)
    requires IdsBelow(v.lines, n)
    ensures IdsBelow(Apply(v, a).view.lines, n)
  {
    var w := Apply(v, a).view;
    match a
    case RemoveItemAction(itemId) =>
      if w != v {
        WithoutMembers(v.lines, itemId);
      }
    case _ =>
  }

  /** Every command keeps the table invariant. */
  lemma CommandKeepsTableValid(t: Table, id: int, a: Action)
    requires TableValid(t)
    ensures TableValid(Command(t, id, a).table)
  {
    if id in t.orders && Apply(t.orders[id], a).outcome.Pass? {
      ApplyPreservesWellFormed(t.orders[id], a);
      ApplyKeepsIdsBelow(t.orders[id], a, t.nextItemId);
      SaveKeepsTableValid(t, id, Apply(t.orders[id], a).view);
    }
  }

  /** Creating an order keeps the table invariant, and the new key was never used. */
  lemma CreateOrderKeepsTableValid(t: Table, customer: Option<int>, notes: Option<string>)
    requires TableValid(t)
    ensures TableValid(CreateOrder(t, customer, notes).table)
    ensures customer.Some? ==> t.nextOrderId !in t.orders
  {
    if customer.Some? {
      var v := OrderView(customer.value, PENDING, [], 0, notes);
      var bumped := t.(nextOrderId := t.nextOrderId + 1);
      SaveKeepsTableValid(bumped, t.nextOrderId, v);
      assert Save(bumped, t.nextOrderId, v) == CreateOrder(t, customer, notes).table;
    }
  }

  lemma DeleteOrderKeepsTableValid(t: Table, id: int)
    requires TableValid(t)
    ensures TableValid(DeleteOrder(t, id).table)
  {
  }

  /** A command that names an unknown order neither saves nor changes anything, for every action. */
  lemma UnknownOrderIsNotFound(t: Table, id: int, a: Action, productId: int, quantity: int, products: map<int, ProductRow>)
    requires id !in t.orders
    ensures Command(t, id, a) == Reply(Fail(NotFound(ORDER_ENTITY, id)), t)
    ensures AddItemById(t, id, productId, quantity, products) == Reply(Fail(NotFound(ORDER_ENTITY, id)), t)
    ensures DeleteOrder(t, id) == Reply(Fail(NotFound(ORDER_ENTITY, id)), t)
  {
  }

  /** The product-id form of addItemToOrder adds lines priced at the product's current price. */
  lemma AddItemByIdUsesCurrentPrice(t: Table, orderId: int, productId: int, quantity: int, products: map<int, ProductRow>)
    requires TableValid(t) && orderId in t.orders && productId in products && products[productId].active
    requires t.orders[orderId].status == PENDING && quantity > 0 && products[productId].price >= 0
    requires forall j :: 0 <= j < |t.orders[orderId].lines| ==> t.orders[orderId].lines[j].productId != productId
    ensures var r := AddItemById(t, orderId, productId, quantity, products);
            r.outcome.Pass?
            && var lines := r.table.orders[orderId].lines;
            |lines| == |t.orders[orderId].lines| + 1
            && lines[|lines| - 1].productId == productId
            && lines[|lines| - 1].unitPrice == products[productId].price
            && lines[|lines| - 1].totalPrice == products[productId].price * quantity
  {
    var v := t.orders[orderId];
    var price := products[productId].price;
    AddingNewProductAppends(v, productId, quantity, price);
    var w := Apply(v, AddItemAction(Some(productId), quantity, Some(price))).view;
    AssignIdsOnlyIds(w.lines, t.nextItemId);
    var lines := AssignIds(w.lines, t.nextItemId);
    assert lines[|lines| - 1] == w.lines[|w.lines| - 1].(id := lines[|lines| - 1].id);
  }
}
