/**
 * The inventory table behind InventoryServiceImpl, as values: the two
 * lookups (getById hides inactive records, findById does not), the
 * one-inventory-per-product rule of createInventory, and, for every service
 * command, the reply and the table it leaves. The class in module
 * InventoryService is proved to follow these functions.
 */
module InventoryStore {
  import opened Wrappers
  import opened InventoryRules

  const INVENTORY_ENTITY := "Inventory"
  const ALREADY_EXISTS := "Inventory already exists for this product"

  /** The inventory table, keyed by id, with its identity generator. */
  datatype StockTable = StockTable(rows: map<int, StockView>, nextId: int)

  datatype StockReply = StockReply(outcome: Outcome, table: StockTable)

  datatype StockCreated = StockCreated(result: Result<int>, table: StockTable)

  /** No two records belong to the same product (the unique product_id column). */
  predicate OnePerProduct(rows: map<int, StockView>) {
    forall a, b :: a in rows && b in rows && rows[a].productId == rows[b].productId ==> a == b
  }

  /** The table invariant: every key was generated, every record keeps its counters valid, one record per product. */
  predicate TableValid(t: StockTable) {
    (forall k :: k in t.rows ==> k < t.nextId && StockValid(t.rows[k])) && OnePerProduct(t.rows)
  }

  /** getById: NotFound when the record is missing or inactive. */
  function GetById(t: StockTable, id: int): (r: Result<StockView>)
    ensures r.Success? <==> id in t.rows && t.rows[id].active
    ensures r.Success? ==> r.value == t.rows[id]
    ensures r.Failure? ==> r.error == NotFound(INVENTORY_ENTITY, id)
  {
    if id in t.rows && t.rows[id].active then Success(t.rows[id]) else Failure(NotFound(INVENTORY_ENTITY, id))
  }

  /** findById(...).orElseThrow: NotFound only when the record is missing. */
  function FindById(t: StockTable, id: int): (r: Result<StockView>)
    ensures r.Success? <==> id in t.rows
    ensures r.Success? ==> r.value == t.rows[id]
    ensures r.Failure? ==> r.error == NotFound(INVENTORY_ENTITY, id)
  {
    if id in t.rows then Success(t.rows[id]) else Failure(NotFound(INVENTORY_ENTITY, id))
  }

  /** existsByProduct: some record, active or not, belongs to the product; never for a null product. */
  predicate ExistsByProduct(t: StockTable, product: Option<int>) {
    product.Some? && exists k :: k in t.rows && t.rows[k].productId == product.value
  }

  /** createInventory: the existence check, then the constructor's checks, then save under the next id. */
  function CreateInventory(t: StockTable, product: Option<int>, cur: int, min: int, max: int, rp: int, rq: int): (r: StockCreated)
    ensures ExistsByProduct(t, product) ==> r == StockCreated(Failure(IllegalArgument(ALREADY_EXISTS)), t)
    ensures r.result.Failure? ==> r.table == t
    ensures r.result.Success? <==> !ExistsByProduct(t, product) && InventoryCheck(product, cur, min, max, rp, rq).Pass?
    ensures r.result.Success? ==>
              r.result.value == t.nextId && r.table.nextId == t.nextId + 1
              && r.table.rows == t.rows[t.nextId := StockView(product.value, cur, min, max, rp, rq, true)]
  {
    if ExistsByProduct(t, product) then StockCreated(Failure(IllegalArgument(ALREADY_EXISTS)), t)
    else
      var check := InventoryCheck(product, cur, min, max, rp, rq);
      if check.Fail? then StockCreated(Failure(check.error), t)
      else
        var id := t.nextId;
        StockCreated(Success(id), StockTable(t.rows[id := StockView(product.value, cur, min, max, rp, rq, true)], id + 1))
  }

  /** Save where the mutator did not throw. */
  function Commit(t: StockTable, id: int, s: StockStep): StockReply {
    if s.outcome.Fail? then StockReply(s.outcome, t) else StockReply(Pass, t.(rows := t.rows[id := s.view]))
  }

  /** The quantity and level commands and deactivateInventory: getById, one mutator, save. */
  function Command(t: StockTable, id: int, a: StockAction): (r: StockReply)
    ensures GetById(t, id).Failure? ==> r == StockReply(Fail(NotFound(INVENTORY_ENTITY, id)), t)
    ensures r.outcome.Fail? ==> r.table == t
    ensures r.table.rows.Keys == t.rows.Keys && r.table.nextId == t.nextId
    ensures forall k :: k in t.rows && k != id ==> r.table.rows[k] == t.rows[k]
  {
    match GetById(t, id)
    case Failure(e) => StockReply(Fail(e), t)
    case Success(v) => Commit(t, id, ApplyStock(v, a))
  }

  /** updateInventory: getById, then the five setters in order, stopping at the first that throws. */
  function UpdateInventory(t: StockTable, id: int, cur: int, min: int, max: int, rp: int, rq: int): (r: StockReply)
    ensures GetById(t, id).Failure? ==> r == StockReply(Fail(NotFound(INVENTORY_ENTITY, id)), t)
    ensures r.outcome.Fail? ==> r.table == t
    ensures r.table.rows.Keys == t.rows.Keys && r.table.nextId == t.nextId
    ensures forall k :: k in t.rows && k != id ==> r.table.rows[k] == t.rows[k]
    ensures GetById(t, id).Success? && StockValid(t.rows[id]) ==>
              (r.outcome.Pass? <==> cur >= 0 && 0 <= min <= t.rows[id].maximumStockLevel && max >= min && rp >= 0 && rq >= 0)
              && (r.outcome.Pass? ==> r.table.rows[id] == t.rows[id].(currentQuantity := cur, minimumStockLevel := min,
                                                                      maximumStockLevel := max, reorderPoint := rp,
                                                                      reorderQuantity := rq))
  {
    match GetById(t, id)
    case Failure(e) => StockReply(Fail(e), t)
    case Success(v) =>
      var s := RunStock(v, UpdateAllActions(cur, min, max, rp, rq));
      assert StockValid(v) ==>
               (s.outcome.Pass? <==> cur >= 0 && 0 <= min <= v.maximumStockLevel && max >= min && rp >= 0 && rq >= 0)
               && (s.outcome.Pass? ==> s.view == v.(currentQuantity := cur, minimumStockLevel := min, maximumStockLevel := max,
                                                     reorderPoint := rp, reorderQuantity := rq)) by {
        if StockValid(v) {
          UpdateAllCharacterized(v, cur, min, max, rp, rq);
        }
      }
      Commit(t, id, s)
  }

  /** activateInventory: findById, so an inactive record is found and reactivated. */
  function ActivateInventory(t: StockTable, id: int): (r: StockReply)
    ensures id !in t.rows ==> r == StockReply(Fail(NotFound(INVENTORY_ENTITY, id)), t)
    ensures id in t.rows ==> r == StockReply(Pass, t.(rows := t.rows[id := t.rows[id].(active := true)]))
  {
    match FindById(t, id)
    case Failure(e) => StockReply(Fail(e), t)
    case Success(v) => Commit(t, id, SetActive(v, true))
  }

  /** deleteInventory: getById, then the record is removed. */
  function DeleteInventory(t: StockTable, id: int): (r: StockReply)
    ensures r.outcome.Pass? <==> id in t.rows && t.rows[id].active
    ensures r.outcome.Fail? ==> r == StockReply(Fail(NotFound(INVENTORY_ENTITY, id)), t)
    ensures r.outcome.Pass? ==> r.table == t.(rows := t.rows - {id})
  {
    match GetById(t, id)
    case Failure(e) => StockReply(Fail(e), t)
    case Success(_) => StockReply(Pass, t.(rows := t.rows - {id}))
  }

  // ---- the table invariant ----

  /** Replacing a record by one for the same product with valid counters keeps the table valid. */
  lemma ReplaceKeepsTableValid(t: StockTable, id: int, v: StockView)
    requires TableValid(t) && id in t.rows && StockValid(v) && v.productId == t.rows[id].productId
    ensures TableValid(t.(rows := t.rows[id := v]))
  {
    var rows := t.rows[id := v];
    forall a, b | a in rows && b in rows && rows[a].productId == rows[b].productId
      ensures a == b
    {
      assert t.rows[a].productId == rows[a].productId && t.rows[b].productId == rows[b].productId;
    }
  }

  lemma CreateKeepsTableValid(t: StockTable, product: Option<int>, cur: int, min: int, max: int, rp: int, rq: int)
    requires TableValid(t)
    ensures TableValid(CreateInventory(t, product, cur, min, max, rp, rq).table)
  {
    var r := CreateInventory(t, product, cur, min, max, rp, rq);
    if r.result.Success? {
      var rows := r.table.rows;
      assert forall k :: k in t.rows ==> t.rows[k].productId != product.value;
      forall a, b | a in rows && b in rows && rows[a].productId == rows[b].productId
        ensures a == b
      {
        if a != t.nextId && b != t.nextId {
          assert t.rows[a].productId == t.rows[b].productId;
        }
      }
    }
  }

  lemma CommandKeepsTableValid(t: StockTable, id: int, a: StockAction)
    requires TableValid(t)
    ensures TableValid(Command(t, id, a).table)
  {
    if GetById(t, id).Success? {
      ApplyStockPreservesValid(t.rows[id], a);
      if ApplyStock(t.rows[id], a).outcome.Pass? {
        ReplaceKeepsTableValid(t, id, ApplyStock(t.rows[id], a).view);
      }
    }
  }

  /** A run of mutators never changes the product. */
  lemma {:induction false} RunStockKeepsProduct(v: StockView, actions: seq<StockAction>)
    ensures RunStock(v, actions).view.productId == v.productId
    decreases |actions|
  {
    if actions != [] {
      RunStockKeepsProduct(ApplyStock(v, actions[0]).view, actions[1..]);
    }
  }

  lemma UpdateInventoryKeepsTableValid(t: StockTable, id: int, cur: int, min: int, max: int, rp: int, rq: int)
    requires TableValid(t)
    ensures TableValid(UpdateInventory(t, id, cur, min, max, rp, rq).table)
  {
    if GetById(t, id).Success? {
      var s := RunStock(t.rows[id], UpdateAllActions(cur, min, max, rp, rq));
      RunStockPreservesValid(t.rows[id], UpdateAllActions(cur, min, max, rp, rq));
      RunStockKeepsProduct(t.rows[id], UpdateAllActions(cur, min, max, rp, rq));
      if s.outcome.Pass? {
        ReplaceKeepsTableValid(t, id, s.view);
      }
    }
  }

  lemma ActivateKeepsTableValid(t: StockTable, id: int)
    requires TableValid(t)
    ensures TableValid(ActivateInventory(t, id).table)
  {
    if id in t.rows {
      ReplaceKeepsTableValid(t, id, t.rows[id].(active := true));
    }
  }

  lemma DeleteKeepsTableValid(t: StockTable, id: int)
    requires TableValid(t)
    ensures TableValid(DeleteInventory(t, id).table)
  {
  }

  // ---- service-level properties ----

  /** Once an inventory exists for a product, creating another for it fails and changes nothing. */
  lemma SecondInventoryRejected(t: StockTable, p: int, cur: int, min: int, max: int, rp: int, rq: int,
                                cur2: int, min2: int, max2: int, rp2: int, rq2: int)
    requires CreateInventory(t, Some(p), cur, min, max, rp, rq).result.Success?
    ensures var t2 := CreateInventory(t, Some(p), cur, min, max, rp, rq).table;
            CreateInventory(t2, Some(p), cur2, min2, max2, rp2, rq2) == StockCreated(Failure(IllegalArgument(ALREADY_EXISTS)), t2)
  {
    var t2 := CreateInventory(t, Some(p), cur, min, max, rp, rq).table;
    assert t2.rows[t.nextId].productId == p;
  }

  /**
   * After deactivateInventory every other command on that record fails
   * NotFound and changes nothing; only activateInventory reaches it, and
   * brings back the record as it was.
   */
  lemma DeactivatedOnlyReactivates(t: StockTable, id: int, a: StockAction, cur: int, min: int, max: int, rp: int, rq: int)
    requires GetById(t, id).Success?
    ensures var t2 := Command(t, id, DeactivateAction).table;
            Command(t2, id, a) == StockReply(Fail(NotFound(INVENTORY_ENTITY, id)), t2)
            && UpdateInventory(t2, id, cur, min, max, rp, rq) == StockReply(Fail(NotFound(INVENTORY_ENTITY, id)), t2)
            && DeleteInventory(t2, id) == StockReply(Fail(NotFound(INVENTORY_ENTITY, id)), t2)
            && ActivateInventory(t2, id) == StockReply(Pass, t)
  {
    var t2 := Command(t, id, DeactivateAction).table;
    assert t2.rows == t.rows[id := t.rows[id].(active := false)];
    assert t2.rows[id := t2.rows[id].(active := true)] == t.rows;
  }

  /** Removing more than is available fails with the argument message and leaves the table alone. */
  lemma RemoveMoreThanAvailableFails(t: StockTable, id: int, q: int)
    requires GetById(t, id).Success? && 0 <= t.rows[id].currentQuantity < q
    ensures Command(t, id, RemoveQuantityAction(q)) == StockReply(Fail(IllegalArgument(REMOVE_TOO_MUCH)), t)
  {
  }
}
