/**
 * OrderServiceImpl over a map-backed order repository. Each command loads
 * the stored order into fresh objects, runs one Order method on them, and
 * saves the result only when the method did not throw; every command is
 * proved to reply and leave the table exactly as OrderStore prescribes.
 */
module OrderService {
  import opened Wrappers
  import opened OrderStatuses
  import opened OrderRules
  import opened Orders
  import OrderStore
  import OrderQueries
  import Users
  import UserRepository

  class OrderService {
    /** The repository's rows and its two identity generators. */
    var table: OrderStore.Table

    ghost predicate Valid()
      reads this
    {
      OrderStore.TableValid(table)
    }

    /** An empty repository; generated keys start at 1. */
    constructor ()
      ensures Valid() && table == OrderStore.Table(map[], 1, 1)
    {
      table := OrderStore.Table(map[], 1, 1);
    }

    /** orderRepository.getById: a fresh order built from the stored row, or NotFound. */
    method Load(id: int) returns (r: Result<Order>)
      requires Valid()
      ensures r.Failure? <==> id !in table.orders
      ensures r.Failure? ==> r.error == NotFound(OrderStore.ORDER_ENTITY, id)
      ensures r.Success? ==> fresh(r.value.Repr) && r.value.Valid() && r.value.View() == table.orders[id]
    {
      if id !in table.orders {
        return Failure(NotFound(OrderStore.ORDER_ENTITY, id));
      }
      var o := Materialize(id, table.orders[id]);
      return Success(o);
    }

    /** orderRepository.save: the order's state is written under its key, with ids for its new lines. */
    method Store(id: int, v: OrderView)
      modifies this
      ensures table == OrderStore.Save(old(table), id, v)
    {
      table := OrderStore.Save(table, id, v);
    }

    /** One Order method, chosen by the action. */
    static method Mutate(o: Order, a: Action) returns (r: Outcome)
      requires o.Valid()
      modifies o.Repr
      ensures o.Valid() && fresh(o.Repr - old(o.Repr))
      ensures Step(r, o.View()) == Apply(old(o.View()), a)
    {
      match a
      case AddItemAction(p, q, u) =>
        r := o.AddItem(p, q, u);
      case RemoveItemAction(itemId) =>
        r := o.RemoveItem(itemId);
      case UpdateItemQuantityAction(itemId, q) =>
        r := o.UpdateItemQuantity(itemId, q);
      case ConfirmAction =>
        r := o.Confirm();
      case StartPreparingAction =>
        r := o.StartPreparing();
      case MarkAsReadyAction =>
        r := o.MarkAsReady();
      case DeliverAction =>
        r := o.Deliver();
      case CancelAction =>
        r := o.Cancel();
      case UpdateNotesAction(notes) =>
        o.UpdateNotes(notes);
        r := Pass;
    }

    /** The shape every command shares: getById, one mutator, save. */
    method Execute(id: int, a: Action) returns (r: Outcome)
      requires Valid()
      modifies this
      ensures Valid()
      ensures OrderStore.Reply(r, table) == OrderStore.Command(old(table), id, a)
    {
      OrderStore.CommandKeepsTableValid(table, id, a);
      var loaded := Load(id);
      if loaded.Failure? {
        return Fail(loaded.error);
      }
      r := MutateAndStore(id, loaded.value, a);
    }

    /** The loaded order runs the mutator; the result is saved only when it did not throw. */
    method MutateAndStore(id: int, o: Order, a: Action) returns (r: Outcome)
      requires id in table.orders && o.Valid() && o.View() == table.orders[id] && this !in o.Repr
      modifies this, o.Repr
      ensures OrderStore.Reply(r, table) == OrderStore.Command(old(table), id, a)
    {
      ghost var t := table;
      ghost var s := Apply(t.orders[id], a);
      assert OrderStore.Command(t, id, a) == (if s.outcome.Fail? then OrderStore.Reply(s.outcome, t) else OrderStore.Reply(Pass, OrderStore.Save(t, id, s.view)));
      r := Mutate(o, a);
      if r.Pass? {
        Store(id, o.View());
      }
    }

    /** createOrder(customer, notes): the new order is saved under the next key. */
    method CreateOrder(customer: Option<int>, notes: Option<string>) returns (r: Result<int>)
      requires Valid()
      modifies this
      ensures Valid()
      ensures OrderStore.Created(r, table) == OrderStore.CreateOrder(old(table), customer, notes)
    {
      OrderStore.CreateOrderKeepsTableValid(table, customer, notes);
      var made := NewOrder(customer, notes);
      if made.Failure? {
        return Failure(made.error);
      }
      var id := table.nextOrderId;
      Store(id, made.value.View());
      table := table.(nextOrderId := id + 1);
      return Success(id);
    }

    /** createOrder(customerId, notes): the customer is looked up first (NotFound for an unknown or disabled user). */
    method CreateOrderForCustomer(users: map<int, Users.User>, customerId: int, notes: Option<string>) returns (r: Result<int>)
      requires Valid()
      modifies this
      ensures Valid()
      ensures UserRepository.GetById(users, customerId).Failure? ==>
                r == Failure(UserRepository.GetById(users, customerId).error) && table == old(table)
      ensures UserRepository.GetById(users, customerId).Success? ==>
                OrderStore.Created(r, table) == OrderStore.CreateOrder(old(table), Some(customerId), notes)
    {
      var customer := UserRepository.GetById(users, customerId);
      if customer.Failure? {
        return Failure(customer.error);
      }
      r := CreateOrder(Some(customerId), notes);
    }

    /** addItemToOrder(orderId, product, quantity, unitPrice). */
    method AddItemToOrder(orderId: int, product: Option<int>, quantity: int, unitPrice: Option<int>) returns (r: Outcome)
      requires Valid()
      modifies this
      ensures Valid()
      ensures OrderStore.Reply(r, table) == OrderStore.Command(old(table), orderId, AddItemAction(product, quantity, unitPrice))
    {
      r := Execute(orderId, AddItemAction(product, quantity, unitPrice));
    }

    /** addItemToOrder(orderId, productId, quantity): the order, then the active product, then its current price. */
    method AddItemToOrderById(orderId: int, productId: int, quantity: int, products: map<int, OrderStore.ProductRow>)
      returns (r: Outcome)
      requires Valid()
      modifies this
      ensures Valid()
      ensures OrderStore.Reply(r, table) == OrderStore.AddItemById(old(table), orderId, productId, quantity, products)
    {
      if orderId !in table.orders {
        return Fail(NotFound(OrderStore.ORDER_ENTITY, orderId));
      }
      if productId !in products || !products[productId].active {
        return Fail(NotFound(OrderStore.PRODUCT_ENTITY, productId));
      }
      r := Execute(orderId, AddItemAction(Some(productId), quantity, Some(products[productId].price)));
    }

    method RemoveItemFromOrder(orderId: int, itemId: Option<int>) returns (r: Outcome)
      requires Valid()
      modifies this
      ensures Valid()
      ensures OrderStore.Reply(r, table) == OrderStore.Command(old(table), orderId, RemoveItemAction(itemId))
    {
      r := Execute(orderId, RemoveItemAction(itemId));
    }

    method UpdateItemQuantity(orderId: int, itemId: Option<int>, newQuantity: int) returns (r: Outcome)
      requires Valid()
      modifies this
      ensures Valid()
      ensures OrderStore.Reply(r, table) == OrderStore.Command(old(table), orderId, UpdateItemQuantityAction(itemId, newQuantity))
    {
      r := Execute(orderId, UpdateItemQuantityAction(itemId, newQuantity));
    }

    method ConfirmOrder(orderId: int) returns (r: Outcome)
      requires Valid()
      modifies this
      ensures Valid()
      ensures OrderStore.Reply(r, table) == OrderStore.Command(old(table), orderId, ConfirmAction)
    {
      r := Execute(orderId, ConfirmAction);
    }

    method StartPreparingOrder(orderId: int) returns (r: Outcome)
      requires Valid()
      modifies this
      ensures Valid()
      ensures OrderStore.Reply(r, table) == OrderStore.Command(old(table), orderId, StartPreparingAction)
    {
      r := Execute(orderId, StartPreparingAction);
    }

    method MarkOrderAsReady(orderId: int) returns (r: Outcome)
      requires Valid()
      modifies this
      ensures Valid()
      ensures OrderStore.Reply(r, table) == OrderStore.Command(old(table), orderId, MarkAsReadyAction)
    {
      r := Execute(orderId, MarkAsReadyAction);
    }

    method DeliverOrder(orderId: int) returns (r: Outcome)
      requires Valid()
      modifies this
      ensures Valid()
      ensures OrderStore.Reply(r, table) == OrderStore.Command(old(table), orderId, DeliverAction)
    {
      r := Execute(orderId, DeliverAction);
    }

    method CancelOrder(orderId: int) returns (r: Outcome)
      requires Valid()
      modifies this
      ensures Valid()
      ensures OrderStore.Reply(r, table) == OrderStore.Command(old(table), orderId, CancelAction)
    {
      r := Execute(orderId, CancelAction);
    }

    method UpdateOrderNotes(orderId: int, notes: Option<string>) returns (r: Outcome)
      requires Valid()
      modifies this
      ensures Valid()
      ensures OrderStore.Reply(r, table) == OrderStore.Command(old(table), orderId, UpdateNotesAction(notes))
    {
      r := Execute(orderId, UpdateNotesAction(notes));
    }

    /** deleteOrder: getById (NotFound), then the row is removed whatever the order's status. */
    method DeleteOrder(id: int) returns (r: Outcome)
      requires Valid()
      modifies this
      ensures Valid()
      ensures OrderStore.Reply(r, table) == OrderStore.DeleteOrder(old(table), id)
    {
      if id !in table.orders {
        return Fail(NotFound(OrderStore.ORDER_ENTITY, id));
      }
      table := table.(orders := table.orders - {id});
      return Pass;
    }

    // ---- read-only queries ----

    function ExistsById(id: int): (r: bool)
      reads this
      ensures r <==> OrderStore.GetById(table, id).Success?
    {
      id in table.orders
    }

    function GetTotalRevenue(): (r: int)
      reads this
      ensures r == GetRevenueByStatus(DELIVERED)
    {
      OrderQueries.TotalRevenue(table.orders)
    }

    function GetRevenueByStatus(s: OrderStatus): (r: int)
      reads this
      ensures OrderQueries.FindByStatus(table.orders, s) == {} ==> r == 0
    {
      OrderQueries.RevenueByStatus(table.orders, s)
    }

    /** Revenue read from a valid repository is never negative. */
    lemma RevenueIsNonNegative(s: OrderStatus)
      requires Valid()
      ensures GetRevenueByStatus(s) >= 0 && GetTotalRevenue() >= 0
    {
      OrderQueries.RevenueNonNegative(table, s);
      OrderQueries.RevenueNonNegative(table, DELIVERED);
    }

    function HasCustomerActiveOrder(customerId: int): (r: bool)
      reads this
      ensures r <==> exists k :: k in table.orders && table.orders[k].customerId == customerId
                                 && table.orders[k].status.IsActive()
    {
      OrderQueries.HasCustomerActiveOrder(table.orders, customerId)
    }

    function GetActiveOrderCount(): (r: nat)
      reads this
      ensures r == |OrderQueries.FindActiveOrders(table.orders)|
    {
      OrderQueries.CountActiveOrders(table.orders)
    }
  }
}
