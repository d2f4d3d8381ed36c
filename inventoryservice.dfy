/**
 * InventoryServiceImpl over a map-backed inventory repository. Each
 * command loads the stored record into a fresh Inventory, calls its
 * setters, and saves only when none threw; every command is proved to
 * reply and leave the table exactly as InventoryStore prescribes.
 */
module InventoryService {
  import opened Wrappers
  import opened InventoryRules
  import opened Inventories
  import InventoryStore
  import InventoryQueries

  class InventoryService {
    /** The repository's rows and its identity generator. */
    var table: InventoryStore.StockTable

    ghost predicate Valid()
      reads this
    {
      InventoryStore.TableValid(table)
    }

    constructor ()
      ensures Valid() && table == InventoryStore.StockTable(map[], 1)
    {
      table := InventoryStore.StockTable(map[], 1);
    }

    /** getById (activeOnly) or findById(...).orElseThrow (every record): a fresh entity, or NotFound. */
    method Load(id: int, activeOnly: bool) returns (r: Result<Inventory>)
      ensures var expected := if activeOnly then InventoryStore.GetById(table, id) else InventoryStore.FindById(table, id);
              (r.Failure? <==> expected.Failure?) && (r.Failure? ==> r.error == expected.error)
              && (r.Success? ==> fresh(r.value) && r.value.View() == expected.value && r.value.id == Some(id))
    {
      if id !in table.rows || (activeOnly && !table.rows[id].active) {
        return Failure(NotFound(InventoryStore.INVENTORY_ENTITY, id));
      }
      var inv := new Inventory.Loaded(id, table.rows[id]);
      return Success(inv);
    }

    /** inventoryRepository.save of a loaded record. */
    method Store(id: int, v: StockView)
      modifies this
      ensures table == old(table).(rows := old(table).rows[id := v])
    {
      table := table.(rows := table.rows[id := v]);
    }

    /** One Inventory setter, chosen by the action. */
    static method Mutate(inv: Inventory, a: StockAction) returns (r: Outcome)
      modifies inv
      ensures StockStep(r, inv.View()) == ApplyStock(old(inv.View()), a)
    {
      match a
      case UpdateQuantityAction(q) =>
        r := inv.UpdateQuantity(q);
      case AddQuantityAction(q) =>
        r := inv.AddQuantity(q);
      case RemoveQuantityAction(q) =>
        r := inv.RemoveQuantity(q);
      case UpdateMinimumAction(l) =>
        r := inv.UpdateMinimumStockLevel(l);
      case UpdateMaximumAction(l) =>
        r := inv.UpdateMaximumStockLevel(l);
      case UpdateReorderPointAction(p) =>
        r := inv.UpdateReorderPoint(p);
      case UpdateReorderQuantityAction(q) =>
        r := inv.UpdateReorderQuantity(q);
      case ActivateAction =>
        inv.Activate();
        r := Pass;
      case DeactivateAction =>
        inv.Deactivate();
        r := Pass;
    }

    /** getById, one setter, save. */
    method Execute(id: int, a: StockAction) returns (r: Outcome)
      requires Valid()
      modifies this
      ensures Valid()
      ensures InventoryStore.StockReply(r, table) == InventoryStore.Command(old(table), id, a)
    {
      InventoryStore.CommandKeepsTableValid(table, id, a);
      var loaded := Load(id, true);
      if loaded.Failure? {
        return Fail(loaded.error);
      }
      var inv := loaded.value;
      r := Mutate(inv, a);
      if r.Pass? {
        Store(id, inv.View());
      }
    }

    /** createInventory: a product that already has an inventory, active or not, is refused. */
    method CreateInventory(product: Option<int>, cur: int, min: int, max: int, rp: int, rq: int) returns (r: Result<int>)
      requires Valid()
      modifies this
      ensures Valid()
      ensures InventoryStore.StockCreated(r, table) == InventoryStore.CreateInventory(old(table), product, cur, min, max, rp, rq)
    {
      InventoryStore.CreateKeepsTableValid(table, product, cur, min, max, rp, rq);
      if product.Some? && exists k :: k in table.rows && table.rows[k].productId == product.value {
        return Failure(IllegalArgument(InventoryStore.ALREADY_EXISTS));
      }
      var made := NewInventory(product, cur, min, max, rp, rq);
      if made.Failure? {
        return Failure(made.error);
      }
      var id := table.nextId;
      table := InventoryStore.StockTable(table.rows[id := made.value.View()], id + 1);
      return Success(id);
    }

    /** updateInventory: the five setters in order on one loaded record; nothing is saved if one throws. */
    method UpdateInventory(id: int, cur: int, min: int, max: int, rp: int, rq: int) returns (r: Outcome)
      requires Valid()
      modifies this
      ensures Valid()
      ensures InventoryStore.StockReply(r, table) == InventoryStore.UpdateInventory(old(table), id, cur, min, max, rp, rq)
    {
      InventoryStore.UpdateInventoryKeepsTableValid(table, id, cur, min, max, rp, rq);
      var loaded := Load(id, true);
      if loaded.Failure? {
        return Fail(loaded.error);
      }
      var inv := loaded.value;
      r := RunSetters(inv, UpdateAllActions(cur, min, max, rp, rq));
      if r.Pass? {
        Store(id, inv.View());
      }
    }

    /** The setters of a list, in order, stopping at the first that throws. */
    static method RunSetters(inv: Inventory, actions: seq<StockAction>) returns (r: Outcome)
      modifies inv
      ensures StockStep(r, inv.View()) == RunStock(old(inv.View()), actions)
    {
      var i := 0;
      r := Pass;
      while i < |actions|
        invariant 0 <= i <= |actions|
        invariant r.Pass?
        invariant RunStock(old(inv.View()), actions) == RunStock(inv.View(), actions[i..])
      {
        ghost var before := inv.View();
        assert actions[i..][0] == actions[i] && actions[i..][1..] == actions[i + 1..];
        r := Mutate(inv, actions[i]);
        if r.Fail? {
          assert RunStock(before, actions[i..]) == ApplyStock(before, actions[i]);
          return;
        }
        i := i + 1;
      }
    }

    method UpdateQuantity(id: int, quantity: int) returns (r: Outcome)
      requires Valid()
      modifies this
      ensures Valid()
      ensures InventoryStore.StockReply(r, table) == InventoryStore.Command(old(table), id, UpdateQuantityAction(quantity))
    {
      r := Execute(id, UpdateQuantityAction(quantity));
    }

    method AddQuantity(id: int, quantity: int) returns (r: Outcome)
      requires Valid()
      modifies this
      ensures Valid()
      ensures InventoryStore.StockReply(r, table) == InventoryStore.Command(old(table), id, AddQuantityAction(quantity))
    {
      r := Execute(id, AddQuantityAction(quantity));
    }

    method RemoveQuantity(id: int, quantity: int) returns (r: Outcome)
      requires Valid()
      modifies this
      ensures Valid()
      ensures InventoryStore.StockReply(r, table) == InventoryStore.Command(old(table), id, RemoveQuantityAction(quantity))
    {
      r := Execute(id, RemoveQuantityAction(quantity));
    }

    method UpdateMinimumStockLevel(id: int, level: int) returns (r: Outcome)
      requires Valid()
      modifies this
      ensures Valid()
      ensures InventoryStore.StockReply(r, table) == InventoryStore.Command(old(table), id, UpdateMinimumAction(level))
    {
      r := Execute(id, UpdateMinimumAction(level));
    }

    method UpdateMaximumStockLevel(id: int, level: int) returns (r: Outcome)
      requires Valid()
      modifies this
      ensures Valid()
      ensures InventoryStore.StockReply(r, table) == InventoryStore.Command(old(table), id, UpdateMaximumAction(level))
    {
      r := Execute(id, UpdateMaximumAction(level));
    }

    method UpdateReorderPoint(id: int, point: int) returns (r: Outcome)
      requires Valid()
      modifies this
      ensures Valid()
      ensures InventoryStore.StockReply(r, table) == InventoryStore.Command(old(table), id, UpdateReorderPointAction(point))
    {
      r := Execute(id, UpdateReorderPointAction(point));
    }

    method UpdateReorderQuantity(id: int, quantity: int) returns (r: Outcome)
      requires Valid()
      modifies this
      ensures Valid()
      ensures InventoryStore.StockReply(r, table) == InventoryStore.Command(old(table), id, UpdateReorderQuantityAction(quantity))
    {
      r := Execute(id, UpdateReorderQuantityAction(quantity));
    }

    /** activateInventory: looked up with findById, so inactive records are reachable. */
    method ActivateInventory(id: int) returns (r: Outcome)
      requires Valid()
      modifies this
      ensures Valid()
      ensures InventoryStore.StockReply(r, table) == InventoryStore.ActivateInventory(old(table), id)
    {
      InventoryStore.ActivateKeepsTableValid(table, id);
      var loaded := Load(id, false);
      if loaded.Failure? {
        return Fail(loaded.error);
      }
      var inv := loaded.value;
      inv.Activate();
      Store(id, inv.View());
      return Pass;
    }

    method DeactivateInventory(id: int) returns (r: Outcome)
      requires Valid()
      modifies this
      ensures Valid()
      ensures InventoryStore.StockReply(r, table) == InventoryStore.Command(old(table), id, DeactivateAction)
    {
      r := Execute(id, DeactivateAction);
    }

    method DeleteInventory(id: int) returns (r: Outcome)
      requires Valid()
      modifies this
      ensures Valid()
      ensures InventoryStore.StockReply(r, table) == InventoryStore.DeleteInventory(old(table), id)
    {
      var loaded := Load(id, true);
      if loaded.Failure? {
        return Fail(loaded.error);
      }
      table := table.(rows := table.rows - {id});
      return Pass;
    }

    // ---- read-only queries ----

    function ExistsByProductId(productId: int): (r: bool)
      reads this
      ensures r <==> InventoryStore.ExistsByProduct(table, Some(productId))
    {
      exists k :: k in table.rows && table.rows[k].productId == productId
    }

    function GetActiveInventoryCount(): (r: nat)
      reads this
      ensures r <= |table.rows|
      ensures r == |table.rows.Keys - InventoryQueries.FindByActivityStatus(table.rows, false)|
    {
      InventoryQueries.ReportsListActiveRecords(table.rows);
      assert InventoryQueries.FindByActivityStatus(table.rows, true) <= table.rows.Keys;
      assert InventoryQueries.FindByActivityStatus(table.rows, true) == table.rows.Keys - InventoryQueries.FindByActivityStatus(table.rows, false);
      |InventoryQueries.FindByActivityStatus(table.rows, true)|
    }
  }
}
