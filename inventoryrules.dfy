/**
 * The stock record of one product as a value: its counters, the stock
 * predicates, and, for each mutator of Inventory, the outcome and the
 * record it leaves. The class in module Inventories is proved to follow
 * these functions; the counter invariant is proved here. Quantities are
 * unbounded integers.
 */
module InventoryRules {
  import opened Wrappers
  import Numbers

  const PRODUCT_NULL := "Product cannot be null"
  const CURRENT_NEGATIVE := "Current quantity cannot be negative"
  const MINIMUM_NEGATIVE := "Minimum stock level cannot be negative"
  const MAXIMUM_NEGATIVE := "Maximum stock level cannot be negative"
  const REORDER_POINT_NEGATIVE := "Reorder point cannot be negative"
  const REORDER_QUANTITY_NEGATIVE := "Reorder quantity cannot be negative"
  const MAXIMUM_BELOW_MINIMUM := "Maximum stock level cannot be less than minimum stock level"
  const MINIMUM_ABOVE_MAXIMUM := "Minimum stock level cannot be greater than maximum stock level"
  const QUANTITY_NEGATIVE := "Quantity cannot be negative"
  const ADD_NEGATIVE := "Quantity to add cannot be negative"
  const REMOVE_NEGATIVE := "Quantity to remove cannot be negative"
  const REMOVE_TOO_MUCH := "Cannot remove more quantity than available"

  /** An inventory as seen from outside: the product (by id), the five counters and the activity flag. */
  datatype StockView = StockView(
    productId: int,
    currentQuantity: int,
    minimumStockLevel: int,
    maximumStockLevel: int,
    reorderPoint: int,
    reorderQuantity: int,
    active: bool)

  /** What a mutator reports and the record it leaves. */
  datatype StockStep = StockStep(outcome: Outcome, view: StockView)

  /** The invariant the constructor establishes: no counter negative, and min <= max. */
  predicate StockValid(v: StockView) {
    v.currentQuantity >= 0 && v.minimumStockLevel >= 0 && v.maximumStockLevel >= 0
    && v.reorderPoint >= 0 && v.reorderQuantity >= 0
    && v.minimumStockLevel <= v.maximumStockLevel
  }

  // ---- the stock predicates ----

  predicate IsBelowMinimumStock(v: StockView) { v.currentQuantity < v.minimumStockLevel }
  predicate IsAtReorderPoint(v: StockView) { v.currentQuantity <= v.reorderPoint }
  predicate IsAboveMaximumStock(v: StockView) { v.currentQuantity > v.maximumStockLevel }
  predicate IsOutOfStock(v: StockView) { v.currentQuantity == 0 }

  /** While min <= max a record is never both under-stocked and over-stocked, and an empty one is always at its reorder point. */
  lemma StockPredicatesAgree(v: StockView)
    requires StockValid(v)
    ensures !(IsBelowMinimumStock(v) && IsAboveMaximumStock(v))
    ensures IsOutOfStock(v) ==> IsAtReorderPoint(v)
    ensures IsOutOfStock(v) && v.minimumStockLevel > 0 ==> IsBelowMinimumStock(v)
  {
  }

  // ---- construction ----

  /** The constructor's checks, in source order. */
  function InventoryCheck(product: Option<int>, currentQuantity: int, minimumStockLevel: int,
                          maximumStockLevel: int, reorderPoint: int, reorderQuantity: int): (r: Outcome)
    ensures r.Pass? <==> product.Some? && StockValid(StockView(product.value, currentQuantity, minimumStockLevel,
                                                              maximumStockLevel, reorderPoint, reorderQuantity, true))
    ensures product.None? ==> r == Fail(IllegalArgument(PRODUCT_NULL))
  {
    if product.None? then Fail(IllegalArgument(PRODUCT_NULL))
    else if currentQuantity < 0 then Fail(IllegalArgument(CURRENT_NEGATIVE))
    else if minimumStockLevel < 0 then Fail(IllegalArgument(MINIMUM_NEGATIVE))
    else if maximumStockLevel < 0 then Fail(IllegalArgument(MAXIMUM_NEGATIVE))
    else if reorderPoint < 0 then Fail(IllegalArgument(REORDER_POINT_NEGATIVE))
    else if reorderQuantity < 0 then Fail(IllegalArgument(REORDER_QUANTITY_NEGATIVE))
    else if maximumStockLevel < minimumStockLevel then Fail(IllegalArgument(MAXIMUM_BELOW_MINIMUM))
    else Pass
  }

  // ---- the mutators ----

  function Refuse(v: StockView, message: string): StockStep {
    StockStep(Fail(IllegalArgument(message)), v)
  }

  /** activate / deactivate: only the flag changes. */
  function SetActive(v: StockView, active: bool): (s: StockStep)
    ensures s.outcome.Pass? && s.view.active == active
    ensures s.view.(active := v.active) == v
  {
    StockStep(Pass, v.(active := active))
  }

  function UpdateQuantity(v: StockView, quantity: int): (s: StockStep)
    ensures s.outcome.Pass? <==> quantity >= 0
    ensures s.outcome.Pass? ==> s.view == v.(currentQuantity := quantity)
    ensures s.outcome.Fail? ==> s == Refuse(v, QUANTITY_NEGATIVE)
  {
    if quantity < 0 then Refuse(v, QUANTITY_NEGATIVE) else StockStep(Pass, v.(currentQuantity := quantity))
  }

  function AddQuantity(v: StockView, quantity: int): (s: StockStep)
    ensures s.outcome.Pass? <==> quantity >= 0
    ensures s.outcome.Pass? ==> s.view == v.(currentQuantity := v.currentQuantity + quantity)
    ensures s.outcome.Fail? ==> s == Refuse(v, ADD_NEGATIVE)
  {
    if quantity < 0 then Refuse(v, ADD_NEGATIVE)
    else StockStep(Pass, v.(currentQuantity := v.currentQuantity + quantity))
  }

  /**
   * addQuantity exactly as compiled: Java's `+=` on an `int` field wraps
   * past 2^31 - 1. The rest of the model uses AddQuantity, the intended sum.
   */
  function AddQuantityAsWritten(v: StockView, quantity: Numbers.int32): (s: StockStep)
    requires Numbers.INT32_MIN <= v.currentQuantity <= Numbers.INT32_MAX
    ensures s.outcome.Pass? <==> quantity >= 0
    ensures s.outcome.Pass? ==> s.view == v.(currentQuantity := Numbers.WrapInt32(v.currentQuantity + quantity as int) as int)
    ensures v.currentQuantity + quantity as int <= Numbers.INT32_MAX ==> s == AddQuantity(v, quantity as int)
  {
    if quantity < 0 then Refuse(v, ADD_NEGATIVE)
    else StockStep(Pass, v.(currentQuantity := Numbers.WrapInt32(v.currentQuantity + quantity as int) as int))
  }

  /** Adding 1 to a full counter is accepted and leaves a negative quantity, so the counter invariant is lost. */
  lemma AddQuantityAsWrittenOverflows()
    ensures var v := StockView(1, Numbers.INT32_MAX, 0, 10, 0, 0, true);
            StockValid(v) && AddQuantityAsWritten(v, 1).outcome.Pass?
            && AddQuantityAsWritten(v, 1).view.currentQuantity == Numbers.INT32_MIN
            && !StockValid(AddQuantityAsWritten(v, 1).view)
  {
    var v := StockView(1, Numbers.INT32_MAX, 0, 10, 0, 0, true);
    assert Numbers.WrapInt32(v.currentQuantity + 1) as int == Numbers.INT32_MIN;
  }

  /** removeQuantity: the sign check comes before the availability check. */
  function RemoveQuantity(v: StockView, quantity: int): (s: StockStep)
    ensures s.outcome.Pass? <==> 0 <= quantity <= v.currentQuantity
    ensures s.outcome.Pass? ==> s.view == v.(currentQuantity := v.currentQuantity - quantity)
    ensures quantity < 0 ==> s == Refuse(v, REMOVE_NEGATIVE)
    ensures 0 <= quantity && v.currentQuantity < quantity ==> s == Refuse(v, REMOVE_TOO_MUCH)
  {
    if quantity < 0 then Refuse(v, REMOVE_NEGATIVE)
    else if v.currentQuantity < quantity then Refuse(v, REMOVE_TOO_MUCH)
    else StockStep(Pass, v.(currentQuantity := v.currentQuantity - quantity))
  }

  function UpdateMinimumStockLevel(v: StockView, level: int): (s: StockStep)
    ensures s.outcome.Pass? <==> 0 <= level <= v.maximumStockLevel
    ensures s.outcome.Pass? ==> s.view == v.(minimumStockLevel := level)
    ensures level < 0 ==> s == Refuse(v, MINIMUM_NEGATIVE)
    ensures 0 <= level && v.maximumStockLevel < level ==> s == Refuse(v, MINIMUM_ABOVE_MAXIMUM)
  {
    if level < 0 then Refuse(v, MINIMUM_NEGATIVE)
    else if level > v.maximumStockLevel then Refuse(v, MINIMUM_ABOVE_MAXIMUM)
    else StockStep(Pass, v.(minimumStockLevel := level))
  }

  function UpdateMaximumStockLevel(v: StockView, level: int): (s: StockStep)
    ensures s.outcome.Pass? <==> level >= 0 && level >= v.minimumStockLevel
    ensures s.outcome.Pass? ==> s.view == v.(maximumStockLevel := level)
    ensures level < 0 ==> s == Refuse(v, MAXIMUM_NEGATIVE)
    ensures 0 <= level < v.minimumStockLevel ==> s == Refuse(v, MAXIMUM_BELOW_MINIMUM)
  {
    if level < 0 then Refuse(v, MAXIMUM_NEGATIVE)
    else if level < v.minimumStockLevel then Refuse(v, MAXIMUM_BELOW_MINIMUM)
    else StockStep(Pass, v.(maximumStockLevel := level))
  }

  /** updateReorderPoint: only the sign is checked, with no relation to min or max. */
  function UpdateReorderPoint(v: StockView, point: int): (s: StockStep)
    ensures s.outcome.Pass? <==> point >= 0
    ensures s.outcome.Pass? ==> s.view == v.(reorderPoint := point)
    ensures s.outcome.Fail? ==> s == Refuse(v, REORDER_POINT_NEGATIVE)
  {
    if point < 0 then Refuse(v, REORDER_POINT_NEGATIVE) else StockStep(Pass, v.(reorderPoint := point))
  }

  function UpdateReorderQuantity(v: StockView, quantity: int): (s: StockStep)
    ensures s.outcome.Pass? <==> quantity >= 0
    ensures s.outcome.Pass? ==> s.view == v.(reorderQuantity := quantity)
    ensures s.outcome.Fail? ==> s == Refuse(v, REORDER_QUANTITY_NEGATIVE)
  {
    if quantity < 0 then Refuse(v, REORDER_QUANTITY_NEGATIVE) else StockStep(Pass, v.(reorderQuantity := quantity))
  }

  /** The inventory mutators, by name. */
  datatype StockAction =
    | UpdateQuantityAction(quantity: int)
    | AddQuantityAction(quantity: int)
    | RemoveQuantityAction(quantity: int)
    | UpdateMinimumAction(level: int)
    | UpdateMaximumAction(level: int)
    | UpdateReorderPointAction(point: int)
    | UpdateReorderQuantityAction(quantity: int)
    | ActivateAction
    | DeactivateAction

  function ApplyStock(v: StockView, a: StockAction): StockStep {
    match a
    case UpdateQuantityAction(q) => UpdateQuantity(v, q)
    case AddQuantityAction(q) => AddQuantity(v, q)
    case RemoveQuantityAction(q) => RemoveQuantity(v, q)
    case UpdateMinimumAction(l) => UpdateMinimumStockLevel(v, l)
    case UpdateMaximumAction(l) => UpdateMaximumStockLevel(v, l)
    case UpdateReorderPointAction(p) => UpdateReorderPoint(v, p)
    case UpdateReorderQuantityAction(q) => UpdateReorderQuantity(v, q)
    case ActivateAction => SetActive(v, true)
    case DeactivateAction => SetActive(v, false)
  }

  /** Every mutator keeps the counter invariant; a refused one changes nothing, and none changes the product. */
  lemma ApplyStockPreservesValid(v: StockView, a: StockAction)
    requires StockValid(v)
    ensures StockValid(ApplyStock(v, a).view)
    ensures ApplyStock(v, a).outcome.Fail? ==> ApplyStock(v, a).view == v
    ensures ApplyStock(v, a).view.productId == v.productId
  {
  }

  /** Only activation and deactivation touch the flag. */
  lemma OnlyActivationMovesTheFlag(v: StockView, a: StockAction)
    requires a != ActivateAction && a != DeactivateAction
    ensures ApplyStock(v, a).view.active == v.active
  {
  }

  /** Deactivating then activating gives the original record back. */
  lemma DeactivateActivateRoundTrip(v: StockView)
    requires v.active
    ensures SetActive(SetActive(v, false).view, true).view == v
  {
  }

  /** Running mutators in order, stopping at the first that throws. */
  function RunStock(v: StockView, actions: seq<StockAction>): (s: StockStep)
    decreases |actions|
  {
    if actions == [] then StockStep(Pass, v)
    else
      var s := ApplyStock(v, actions[0]);
      if s.outcome.Fail? then s else RunStock(s.view, actions[1..])
  }

  /** A run of mutators keeps the counter invariant. */
  lemma {:induction false} RunStockPreservesValid(v: StockView, actions: seq<StockAction>)
    requires StockValid(v)
    ensures StockValid(RunStock(v, actions).view)
    decreases |actions|
  {
    if actions != [] {
      ApplyStockPreservesValid(v, actions[0]);
      RunStockPreservesValid(ApplyStock(v, actions[0]).view, actions[1..]);
    }
  }

  /** updateInventory's setters, in the order the service calls them. */
  function UpdateAllActions(currentQuantity: int, minimumStockLevel: int, maximumStockLevel: int,
                            reorderPoint: int, reorderQuantity: int): seq<StockAction> {
    [UpdateQuantityAction(currentQuantity), UpdateMinimumAction(minimumStockLevel),
     UpdateMaximumAction(maximumStockLevel), UpdateReorderPointAction(reorderPoint),
     UpdateReorderQuantityAction(reorderQuantity)]
  }

  /**
   * The sequence of setters succeeds exactly when the new minimum fits under
   * the old maximum and the new values are otherwise valid; it then yields
   * the record with all five counters replaced.
   */
  lemma UpdateAllCharacterized(v: StockView, cur: int, min: int, max: int, rp: int, rq: int)
    requires StockValid(v)
    ensures var s := RunStock(v, UpdateAllActions(cur, min, max, rp, rq));
            (s.outcome.Pass? <==> cur >= 0 && 0 <= min <= v.maximumStockLevel && max >= min && rp >= 0 && rq >= 0)
            && (s.outcome.Pass? ==> s.view == v.(currentQuantity := cur, minimumStockLevel := min, maximumStockLevel := max,
                                                  reorderPoint := rp, reorderQuantity := rq))
  {
    var acts := UpdateAllActions(cur, min, max, rp, rq);
    assert acts[1..][0] == UpdateMinimumAction(min) && acts[2..][0] == UpdateMaximumAction(max);
    assert acts[3..][0] == UpdateReorderPointAction(rp) && acts[4..][0] == UpdateReorderQuantityAction(rq);
    assert acts[1..][1..] == acts[2..] && acts[2..][1..] == acts[3..] && acts[3..][1..] == acts[4..] && acts[4..][1..] == [];
    if cur >= 0 {
      var v1 := v.(currentQuantity := cur);
      assert RunStock(v, acts) == RunStock(v1, acts[1..]);
      if 0 <= min <= v.maximumStockLevel {
        var v2 := v1.(minimumStockLevel := min);
        assert RunStock(v1, acts[1..]) == RunStock(v2, acts[2..]);
        if max >= 0 && max >= min {
          var v3 := v2.(maximumStockLevel := max);
          assert RunStock(v2, acts[2..]) == RunStock(v3, acts[3..]);
          if rp >= 0 {
            var v4 := v3.(reorderPoint := rp);
            assert RunStock(v3, acts[3..]) == RunStock(v4, acts[4..]);
            assert RunStock(v4, acts[4..]) == (if rq >= 0 then StockStep(Pass, v4.(reorderQuantity := rq)) else ApplyStock(v4, acts[4]));
          }
        }
      }
    }
  }

  /** Raising both levels at once past the old maximum is refused, although the target record is valid. */
  lemma UpdateAllOrderMatters()
    ensures var v := StockView(1, 5, 0, 10, 2, 4, true);
            var target := v.(minimumStockLevel := 15, maximumStockLevel := 20);
            StockValid(v) && StockValid(target)
            && RunStock(v, UpdateAllActions(5, 15, 20, 2, 4)) == Refuse(v, MINIMUM_ABOVE_MAXIMUM)
  {
    var v := StockView(1, 5, 0, 10, 2, 4, true);
    var acts := UpdateAllActions(5, 15, 20, 2, 4);
    assert ApplyStock(v, acts[0]).view == v;
    assert acts[1..][0] == UpdateMinimumAction(15);
  }
}
