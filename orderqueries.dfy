/**
 * The read side of the order table: the JPQL and derived queries of the
 * Spring Data order repository as filters over the stored orders (a query
 * result is the set of matching order ids), and the service's revenue and
 * active-order questions built on them. Money is integer cents.
 */
module OrderQueries {
  import opened Wrappers
  import opened OrderStatuses
  import opened OrderRules
  import opened OrderStore

  /** The four status literals of the active-order queries. */
  const ACTIVE_LITERALS: set<string> := {"PENDING", "CONFIRMED", "PREPARING", "READY"}

  // ---- derived queries ----

  /** findByStatus / countByStatus: the derived query on the status column. */
  function FindByStatus(store: map<int, OrderView>, s: OrderStatus): set<int> {
    set k | k in store && store[k].status == s
  }

  function FindByCustomerId(store: map<int, OrderView>, customerId: int): set<int> {
    set k | k in store && store[k].customerId == customerId
  }

  // ---- JPQL queries: the enum column compared with string literals ----

  /** o.status IN ('PENDING', 'CONFIRMED', 'PREPARING', 'READY'): exactly the orders isActive accepts. */
  function FindActiveOrders(store: map<int, OrderView>): (r: set<int>)
    ensures forall k :: k in r <==> k in store && store[k].status.IsActive()
  {
    set k | k in store && store[k].status.Name() in ACTIVE_LITERALS
  }

  /** SELECT COUNT(o) with the same IN list: the size of findActiveOrders. */
  function CountActiveOrders(store: map<int, OrderView>): (r: nat)
    ensures r == |FindActiveOrders(store)|
  {
    |set k | k in store && store[k].status.Name() in ACTIVE_LITERALS|
  }

  /** o.status = literal, for the six finders. */
  function FindByStatusLiteral(store: map<int, OrderView>, literal: string): set<int> {
    set k | k in store && store[k].status.Name() == literal
  }

  /** Comparing the status column with a constant's name selects exactly that constant. */
  lemma LiteralQueryIsStatusQuery(store: map<int, OrderView>, s: OrderStatus)
    ensures FindByStatusLiteral(store, s.Name()) == FindByStatus(store, s)
  {
    forall k | k in store
      ensures store[k].status.Name() == s.Name() <==> store[k].status == s
    {
      NameIsInjective(store[k].status, s);
    }
  }

  function FindPendingOrders(store: map<int, OrderView>): (r: set<int>)
    ensures r == FindByStatus(store, PENDING)
  {
    LiteralQueryIsStatusQuery(store, PENDING);
    FindByStatusLiteral(store, "PENDING")
  }

  function FindConfirmedOrders(store: map<int, OrderView>): (r: set<int>)
    ensures r == FindByStatus(store, CONFIRMED)
  {
    LiteralQueryIsStatusQuery(store, CONFIRMED);
    FindByStatusLiteral(store, "CONFIRMED")
  }

  function FindPreparingOrders(store: map<int, OrderView>): (r: set<int>)
    ensures r == FindByStatus(store, PREPARING)
  {
    LiteralQueryIsStatusQuery(store, PREPARING);
    FindByStatusLiteral(store, "PREPARING")
  }

  function FindReadyOrders(store: map<int, OrderView>): (r: set<int>)
    ensures r == FindByStatus(store, READY)
  {
    LiteralQueryIsStatusQuery(store, READY);
    FindByStatusLiteral(store, "READY")
  }

  function FindDeliveredOrders(store: map<int, OrderView>): (r: set<int>)
    ensures r == FindByStatus(store, DELIVERED)
  {
    LiteralQueryIsStatusQuery(store, DELIVERED);
    FindByStatusLiteral(store, "DELIVERED")
  }

  function FindCancelledOrders(store: map<int, OrderView>): (r: set<int>)
    ensures r == FindByStatus(store, CANCELLED)
  {
    LiteralQueryIsStatusQuery(store, CANCELLED);
    FindByStatusLiteral(store, "CANCELLED")
  }

  /** SIZE(o.items) = n / >= n / <= n. */
  function FindOrdersWithItemCount(store: map<int, OrderView>, n: int): set<int> {
    set k | k in store && |store[k].lines| == n
  }

  function FindOrdersWithMinimumItems(store: map<int, OrderView>, n: int): set<int> {
    set k | k in store && |store[k].lines| >= n
  }

  function FindOrdersWithMaximumItems(store: map<int, OrderView>, n: int): set<int> {
    set k | k in store && |store[k].lines| <= n
  }

  // ---- revenue: a sum over a set of orders ----

  /** The smallest id of a non-empty set of ids. */
  function MinId(ids: set<int>): (m: int)
    requires ids != {}
    ensures m in ids && forall j :: j in ids ==> m <= j
  {
    HasMinimum(ids);
    var m :| m in ids && forall j :: j in ids ==> m <= j;
    m
  }

  /** Some member of a non-empty set. */
  ghost function PickId(ids: set<int>): (x: int)
    requires ids != {}
    ensures x in ids
  {
    HasMember(ids);
    var x :| x in ids; x
  }

  lemma {:induction false} HasMinimum(ids: set<int>)
    requires ids != {}
    ensures exists m :: m in ids && forall j :: j in ids ==> m <= j
    decreases |ids|
  {
    var x := PickId(ids);
    if ids != {x} {
      var rest := ids - {x};
      HasMinimum(rest);
      var m :| m in rest && forall j :: j in rest ==> m <= j;
      var least := if x < m then x else m;
      forall j | j in ids
        ensures least <= j
      {
        if j != x {
          assert j in rest;
        }
      }
      assert least in ids;
    } else {
      forall j | j in ids
        ensures x <= j
      {
        assert j in {x};
      }
    }
  }

  /** The stream reduce of BigDecimal.add from ZERO over the totals of the given orders. */
  function SumAmounts(store: map<int, OrderView>, ids: set<int>): int
    requires ids <= store.Keys
    decreases |ids|
  {
    if ids == {} then 0
    else
      var m := MinId(ids);
      store[m].totalAmount + SumAmounts(store, ids - {m})
  }

  /** getRevenueByStatus: the summed totals of the orders in that status. */
  function RevenueByStatus(store: map<int, OrderView>, s: OrderStatus): (r: int)
    ensures FindByStatus(store, s) == {} ==> r == 0
  {
    SumAmounts(store, FindByStatus(store, s))
  }

  /** getTotalRevenue: the summed totals of the delivered orders. */
  function TotalRevenue(store: map<int, OrderView>): (r: int)
    ensures r == RevenueByStatus(store, DELIVERED)
    ensures (forall k :: k in store ==> store[k].status != DELIVERED) ==> r == 0
  {
    assert FindByStatus(store, DELIVERED) == {} <== (forall k :: k in store ==> store[k].status != DELIVERED);
    SumAmounts(store, FindByStatus(store, DELIVERED))
  }

  /** hasCustomerActiveOrder: anyMatch(isActive) over the customer's orders. */
  function HasCustomerActiveOrder(store: map<int, OrderView>, customerId: int): (r: bool)
    ensures r <==> exists k :: k in store && store[k].customerId == customerId && store[k].status.IsActive()
  {
    exists k :: k in FindByCustomerId(store, customerId) && store[k].status.IsActive()
  }

  // ---- properties of the queries ----

  /** The JPQL count and the derived per-status counts agree: active, delivered and cancelled orders make up the table. */
  lemma StatusQueriesPartition(store: map<int, OrderView>)
    ensures FindActiveOrders(store) + FindDeliveredOrders(store) + FindCancelledOrders(store) == store.Keys
    ensures CountActiveOrders(store) + |FindDeliveredOrders(store)| + |FindCancelledOrders(store)| == |store|
  {
    var a, d, c := FindActiveOrders(store), FindDeliveredOrders(store), FindCancelledOrders(store);
    assert a + d + c == store.Keys;
    DisjointUnionSize(a, d);
    DisjointUnionSize(a + d, c);
  }

  /** The active-order query is the union of the four in-progress finders. */
  lemma ActiveIsFourFinders(store: map<int, OrderView>)
    ensures FindActiveOrders(store) == FindPendingOrders(store) + FindConfirmedOrders(store)
                                       + FindPreparingOrders(store) + FindReadyOrders(store)
  {
  }

  lemma DisjointUnionSize(x: set<int>, y: set<int>)
    requires x * y == {}
    ensures |x + y| == |x| + |y|
  {
    assert |x * y| == 0;
  }

  /** Each stored order is found by exactly one of the six per-status finders. */
  lemma EachOrderInOneStatusQuery(store: map<int, OrderView>, k: int, s: OrderStatus)
    requires k in store
    ensures k in FindByStatus(store, s) <==> store[k].status == s
    ensures k in FindByStatusLiteral(store, s.Name()) <==> store[k].status == s
  {
    NameIsInjective(store[k].status, s);
  }

  /** The item-count finders: = n is the meet of >= n and <= n, and >= 0 finds every order. */
  lemma ItemCountQueries(store: map<int, OrderView>, n: int)
    ensures FindOrdersWithItemCount(store, n) == FindOrdersWithMinimumItems(store, n) * FindOrdersWithMaximumItems(store, n)
    ensures FindOrdersWithMinimumItems(store, 0) == store.Keys
    ensures n < 0 ==> FindOrdersWithMaximumItems(store, n) == {}
  {
  }

  /** Orders a status query sees in the well-formed table are never empty unless pending or cancelled. */
  lemma ProgressedOrdersHaveItems(t: Table, k: int)
    requires TableValid(t) && k in t.orders
    requires k in FindConfirmedOrders(t.orders) + FindPreparingOrders(t.orders)
                  + FindReadyOrders(t.orders) + FindDeliveredOrders(t.orders)
    ensures FindOrdersWithMinimumItems(t.orders, 1) * {k} == {k}
  {
  }

  /** Taking one order out of a sum: the sum does not depend on the order the reduce visits the orders in. */
  lemma {:induction false} SumAmountsRemove(store: map<int, OrderView>, ids: set<int>, k: int)
    requires ids <= store.Keys && k in ids
    ensures SumAmounts(store, ids) == store[k].totalAmount + SumAmounts(store, ids - {k})
    decreases |ids|
  {
    var m := MinId(ids);
    if m != k {
      SumAmountsRemove(store, ids - {m}, k);
      SumAmountsRemove(store, ids - {k}, m);
      assert ids - {m} - {k} == ids - {k} - {m};
    }
  }

  /** The sum sees only the totals of the orders it adds up. */
  lemma {:induction false} SumAmountsFrame(a: map<int, OrderView>, b: map<int, OrderView>, ids: set<int>)
    requires ids <= a.Keys && ids <= b.Keys
    requires forall k :: k in ids ==> a[k].totalAmount == b[k].totalAmount
    ensures SumAmounts(a, ids) == SumAmounts(b, ids)
    decreases |ids|
  {
    if ids != {} {
      SumAmountsFrame(a, b, ids - {MinId(ids)});
    }
  }

  /** Summed totals of well-formed orders are never negative. */
  lemma {:induction false} SumAmountsNonNegative(store: map<int, OrderView>, ids: set<int>)
    requires ids <= store.Keys && forall k :: k in ids ==> WellFormed(store[k])
    ensures SumAmounts(store, ids) >= 0
    decreases |ids|
  {
    if ids != {} {
      var m := MinId(ids);
      SumTotalsNonNegative(store[m].lines);
      SumAmountsNonNegative(store, ids - {m});
    }
  }

  /** Revenue over a valid table is never negative. */
  lemma RevenueNonNegative(t: Table, s: OrderStatus)
    requires TableValid(t)
    ensures RevenueByStatus(t.orders, s) >= 0
  {
    SumAmountsNonNegative(t.orders, FindByStatus(t.orders, s));
  }

  /** deliverOrder that succeeds adds exactly that order's total to the total revenue. */
  lemma DeliverAddsToRevenue(t: Table, id: int)
    requires id in t.orders && Command(t, id, DeliverAction).outcome.Pass?
    ensures TotalRevenue(Command(t, id, DeliverAction).table.orders) == TotalRevenue(t.orders) + t.orders[id].totalAmount
  {
    var before := t.orders;
    var after := Command(t, id, DeliverAction).table.orders;
    var d := FindByStatus(before, DELIVERED);
    assert before[id].status == READY;
    assert after[id].status == DELIVERED && after[id].totalAmount == before[id].totalAmount;
    assert FindByStatus(after, DELIVERED) == d + {id};
    SumAmountsRemove(after, d + {id}, id);
    assert d + {id} - {id} == d;
    SumAmountsFrame(after, before, d);
  }

  /** A command on an order that is not in the given status leaves that status's revenue alone unless it moves the order into it. */
  lemma CommandOnOtherStatusKeepsRevenue(t: Table, id: int, a: Action, s: OrderStatus)
    requires id in t.orders && t.orders[id].status != s
    requires Command(t, id, a).table.orders[id].status != s
    ensures RevenueByStatus(Command(t, id, a).table.orders, s) == RevenueByStatus(t.orders, s)
  {
    var after := Command(t, id, a).table.orders;
    assert FindByStatus(after, s) == FindByStatus(t.orders, s);
    SumAmountsFrame(after, t.orders, FindByStatus(t.orders, s));
  }

  /** A freshly created order makes its customer one with an active order. */
  lemma CreatedOrderIsActive(t: Table, customerId: int, notes: Option<string>)
    ensures HasCustomerActiveOrder(CreateOrder(t, Some(customerId), notes).table.orders, customerId)
  {
    var r := CreateOrder(t, Some(customerId), notes);
    assert r.table.orders[t.nextOrderId].customerId == customerId;
  }
}
