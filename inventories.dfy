/**
 * The Inventory entity as an object whose mutators update its fields in
 * place; each method is proved to leave the record InventoryRules
 * prescribes. The clock stamps of lastUpdatedDate are not modelled.
 */
module Inventories {
  import opened Wrappers
  import opened ActivityStatuses
  import opened InventoryRules

  class Inventory {
    /** Generated primary key; None until saved. */
    var id: Option<int>
    /** The product this stock belongs to, by id. */
    const productId: int
    var currentQuantity: int
    var minimumStockLevel: int
    var maximumStockLevel: int
    var reorderPoint: int
    var reorderQuantity: int
    var activityStatus: ActivityStatus

    function View(): StockView
      reads this
    {
      StockView(productId, currentQuantity, minimumStockLevel, maximumStockLevel,
                reorderPoint, reorderQuantity, activityStatus.IsActive())
    }

    ghost predicate Valid()
      reads this
    {
      StockValid(View())
    }

    /** The constructor's assignments, once its checks have passed: a new inventory is active. */
    constructor (productId: int, currentQuantity: int, minimumStockLevel: int,
                 maximumStockLevel: int, reorderPoint: int, reorderQuantity: int)
      ensures id.None?
      ensures View() == StockView(productId, currentQuantity, minimumStockLevel, maximumStockLevel,
                                  reorderPoint, reorderQuantity, true)
    {
      this.id := None;
      this.productId := productId;
      this.currentQuantity := currentQuantity;
      this.minimumStockLevel := minimumStockLevel;
      this.maximumStockLevel := maximumStockLevel;
      this.reorderPoint := reorderPoint;
      this.reorderQuantity := reorderQuantity;
      this.activityStatus := ActivityStatus(true);
    }

    /** The persistence layer's reconstruction of a stored record. */
    constructor Loaded(id: int, v: StockView)
      ensures this.id == Some(id) && View() == v
    {
      this.id := Some(id);
      this.productId := v.productId;
      this.currentQuantity := v.currentQuantity;
      this.minimumStockLevel := v.minimumStockLevel;
      this.maximumStockLevel := v.maximumStockLevel;
      this.reorderPoint := v.reorderPoint;
      this.reorderQuantity := v.reorderQuantity;
      this.activityStatus := ActivityStatus(v.active);
    }

    function IsActive(): (r: bool)
      reads this
      ensures r == View().active
    {
      activityStatus.IsActive()
    }

    method Deactivate()
      modifies this
      ensures id == old(id) && View() == SetActive(old(View()), false).view
    {
      activityStatus := ActivityStatus(false);
    }

    method Activate()
      modifies this
      ensures id == old(id) && View() == SetActive(old(View()), true).view
    {
      activityStatus := ActivityStatus(true);
    }

    method UpdateQuantity(quantity: int) returns (r: Outcome)
      modifies this
      ensures id == old(id) && StockStep(r, View()) == InventoryRules.UpdateQuantity(old(View()), quantity)
    {
      if quantity < 0 {
        return Fail(IllegalArgument(QUANTITY_NEGATIVE));
      }
      currentQuantity := quantity;
      return Pass;
    }

    /** addQuantity; Java's int addition could wrap, which is not modelled. */
    method AddQuantity(quantity: int) returns (r: Outcome)
      modifies this
      ensures id == old(id) && StockStep(r, View()) == InventoryRules.AddQuantity(old(View()), quantity)
    {
      if quantity < 0 {
        return Fail(IllegalArgument(ADD_NEGATIVE));
      }
      currentQuantity := currentQuantity + quantity;
      return Pass;
    }

    method RemoveQuantity(quantity: int) returns (r: Outcome)
      modifies this
      ensures id == old(id) && StockStep(r, View()) == InventoryRules.RemoveQuantity(old(View()), quantity)
    {
      if quantity < 0 {
        return Fail(IllegalArgument(REMOVE_NEGATIVE));
      }
      if currentQuantity < quantity {
        return Fail(IllegalArgument(REMOVE_TOO_MUCH));
      }
      currentQuantity := currentQuantity - quantity;
      return Pass;
    }

    method UpdateMinimumStockLevel(level: int) returns (r: Outcome)
      modifies this
      ensures id == old(id) && StockStep(r, View()) == InventoryRules.UpdateMinimumStockLevel(old(View()), level)
    {
      if level < 0 {
        return Fail(IllegalArgument(MINIMUM_NEGATIVE));
      }
      if level > maximumStockLevel {
        return Fail(IllegalArgument(MINIMUM_ABOVE_MAXIMUM));
      }
      minimumStockLevel := level;
      return Pass;
    }

    method UpdateMaximumStockLevel(level: int) returns (r: Outcome)
      modifies this
      ensures id == old(id) && StockStep(r, View()) == InventoryRules.UpdateMaximumStockLevel(old(View()), level)
    {
      if level < 0 {
        return Fail(IllegalArgument(MAXIMUM_NEGATIVE));
      }
      if level < minimumStockLevel {
        return Fail(IllegalArgument(MAXIMUM_BELOW_MINIMUM));
      }
      maximumStockLevel := level;
      return Pass;
    }

    method UpdateReorderPoint(point: int) returns (r: Outcome)
      modifies this
      ensures id == old(id) && StockStep(r, View()) == InventoryRules.UpdateReorderPoint(old(View()), point)
    {
      if point < 0 {
        return Fail(IllegalArgument(REORDER_POINT_NEGATIVE));
      }
      reorderPoint := point;
      return Pass;
    }

    method UpdateReorderQuantity(quantity: int) returns (r: Outcome)
      modifies this
      ensures id == old(id) && StockStep(r, View()) == InventoryRules.UpdateReorderQuantity(old(View()), quantity)
    {
      if quantity < 0 {
        return Fail(IllegalArgument(REORDER_QUANTITY_NEGATIVE));
      }
      reorderQuantity := quantity;
      return Pass;
    }

    function IsBelowMinimumStock(): (r: bool)
      reads this
      ensures r == InventoryRules.IsBelowMinimumStock(View())
      ensures Valid() && r ==> !IsAboveMaximumStock()
    {
      currentQuantity < minimumStockLevel
    }

    function IsAtReorderPoint(): (r: bool)
      reads this
      ensures r == InventoryRules.IsAtReorderPoint(View())
      ensures Valid() && IsOutOfStock() ==> r
    {
      currentQuantity <= reorderPoint
    }

    function IsAboveMaximumStock(): (r: bool)
      reads this
      ensures r == InventoryRules.IsAboveMaximumStock(View())
    {
      currentQuantity > maximumStockLevel
    }

    function IsOutOfStock(): (r: bool)
      reads this
      ensures r == InventoryRules.IsOutOfStock(View())
    {
      currentQuantity == 0
    }
  }

  /** new Inventory(...): the checks in source order, then an active record. */
  method NewInventory(product: Option<int>, currentQuantity: int, minimumStockLevel: int,
                      maximumStockLevel: int, reorderPoint: int, reorderQuantity: int) returns (r: Result<Inventory>)
    ensures var check := InventoryCheck(product, currentQuantity, minimumStockLevel, maximumStockLevel, reorderPoint, reorderQuantity);
            (check.Fail? <==> r.Failure?) && (check.Fail? ==> r.error == check.error)
    ensures r.Success? ==>
              fresh(r.value) && r.value.Valid() && r.value.id.None?
              && r.value.View() == StockView(product.value, currentQuantity, minimumStockLevel, maximumStockLevel,
                                             reorderPoint, reorderQuantity, true)
  {
    var check := InventoryCheck(product, currentQuantity, minimumStockLevel, maximumStockLevel, reorderPoint, reorderQuantity);
    if check.Fail? {
      return Failure(check.error);
    }
    var inv := new Inventory(product.value, currentQuantity, minimumStockLevel, maximumStockLevel, reorderPoint, reorderQuantity);
    return Success(inv);
  }
}
