/**
 * The Product entity's rules as functions on its persistent state: the
 * constructor's checks, each mutator's reply and resulting record, and the
 * invariants they keep (price and stock never negative). The class in
 * module Products is proved to follow these functions.
 *
 * Prices are BigDecimal amounts scaled to whole cents; references to a
 * category are by its id; a Java null is None.
 */
module ProductRules {
  import opened Wrappers
  import opened Words
  import Numbers
  import InventoryRules

  const NAME_NULL := "Product name cannot be null"
  const DESCRIPTION_NULL := "Product description cannot be null"
  const PRICE_NULL := "Product price cannot be null"
  const CATEGORY_NULL := "Product category cannot be null"
  const PRICE_NEGATIVE := "Product price cannot be negative"
  const STOCK_NEGATIVE := "Product stock quantity cannot be negative"
  const QUANTITY_NOT_POSITIVE := "Quantity must be positive"

  /** A product's fields, apart from its id and its clock stamps. */
  datatype ProductView = ProductView(name: Word, description: Word, price: int, categoryId: int,
                                     imageUrl: Option<string>, stockQuantity: int, active: bool)

  /** What a void mutator leaves: whether it threw, and the record afterwards. */
  datatype ProductStep = ProductStep(outcome: Outcome, view: ProductView)

  /** What reduceStock leaves: its boolean reply or the exception, and the record afterwards. */
  datatype ReduceStep = ReduceStep(result: Result<bool>, view: ProductView)

  /** The invariant every constructed product keeps. */
  predicate ProductValid(v: ProductView) {
    v.price >= 0 && v.stockQuantity >= 0
  }

  function Refuse(v: ProductView, message: string): ProductStep {
    ProductStep(Fail(IllegalArgument(message)), v)
  }

  /** The constructor's checks, in source order: the four null checks, then price, then stock. */
  function ProductCheck(name: Option<Word>, description: Option<Word>, price: Option<int>,
                        category: Option<int>, stockQuantity: int): (r: Outcome)
    ensures r.Pass? <==> name.Some? && description.Some? && price.Some? && category.Some?
                         && price.value >= 0 && stockQuantity >= 0
    ensures name.None? ==> r == Fail(IllegalArgument(NAME_NULL))
    ensures name.Some? && description.None? ==> r == Fail(IllegalArgument(DESCRIPTION_NULL))
    ensures name.Some? && description.Some? && price.None? ==> r == Fail(IllegalArgument(PRICE_NULL))
    ensures name.Some? && description.Some? && price.Some? && category.None? ==> r == Fail(IllegalArgument(CATEGORY_NULL))
    ensures name.Some? && description.Some? && price.Some? && category.Some? && price.value < 0
            ==> r == Fail(IllegalArgument(PRICE_NEGATIVE))
    ensures name.Some? && description.Some? && price.Some? && category.Some? && price.value >= 0 && stockQuantity < 0
            ==> r == Fail(IllegalArgument(STOCK_NEGATIVE))
    ensures r.Fail? ==> r.error.IllegalArgument?
  {
    if name.None? then Fail(IllegalArgument(NAME_NULL))
    else if description.None? then Fail(IllegalArgument(DESCRIPTION_NULL))
    else if price.None? then Fail(IllegalArgument(PRICE_NULL))
    else if category.None? then Fail(IllegalArgument(CATEGORY_NULL))
    else if price.value < 0 then Fail(IllegalArgument(PRICE_NEGATIVE))
    else if stockQuantity < 0 then Fail(IllegalArgument(STOCK_NEGATIVE))
    else Pass
  }

  /** new Product(...): the record a passing check builds is active and valid. */
  function NewProduct(name: Option<Word>, description: Option<Word>, price: Option<int>, category: Option<int>,
                      imageUrl: Option<string>, stockQuantity: int): (r: Result<ProductView>)
    ensures r.Success? <==> ProductCheck(name, description, price, category, stockQuantity).Pass?
    ensures r.Failure? ==> r.error == ProductCheck(name, description, price, category, stockQuantity).error
    ensures r.Success? ==> ProductValid(r.value)
                           && r.value == ProductView(name.value, description.value, price.value, category.value,
                                                     imageUrl, stockQuantity, true)
  {
    var check := ProductCheck(name, description, price, category, stockQuantity);
    if check.Fail? then Failure(check.error)
    else Success(ProductView(name.value, description.value, price.value, category.value, imageUrl, stockQuantity, true))
  }

  /** activate / deactivate: only the flag changes. */
  function SetActive(v: ProductView, active: bool): (s: ProductStep)
    ensures s.outcome.Pass? && s.view.active == active
    ensures s.view.(active := v.active) == v
  {
    ProductStep(Pass, v.(active := active))
  }

  function ChangeName(v: ProductView, name: Option<Word>): (s: ProductStep)
    ensures s.outcome.Pass? <==> name.Some?
    ensures s.outcome.Pass? ==> s.view == v.(name := name.value)
    ensures s.outcome.Fail? ==> s == Refuse(v, NAME_NULL)
  {
    if name.None? then Refuse(v, NAME_NULL) else ProductStep(Pass, v.(name := name.value))
  }

  function ChangeDescription(v: ProductView, description: Option<Word>): (s: ProductStep)
    ensures s.outcome.Pass? <==> description.Some?
    ensures s.outcome.Pass? ==> s.view == v.(description := description.value)
    ensures s.outcome.Fail? ==> s == Refuse(v, DESCRIPTION_NULL)
  {
    if description.None? then Refuse(v, DESCRIPTION_NULL) else ProductStep(Pass, v.(description := description.value))
  }

  /** changePrice: the null check, then the sign check. */
  function ChangePrice(v: ProductView, price: Option<int>): (s: ProductStep)
    ensures s.outcome.Pass? <==> price.Some? && price.value >= 0
    ensures s.outcome.Pass? ==> s.view == v.(price := price.value)
    ensures price.None? ==> s == Refuse(v, PRICE_NULL)
    ensures price.Some? && price.value < 0 ==> s == Refuse(v, PRICE_NEGATIVE)
  {
    if price.None? then Refuse(v, PRICE_NULL)
    else if price.value < 0 then Refuse(v, PRICE_NEGATIVE)
    else ProductStep(Pass, v.(price := price.value))
  }

  function ChangeCategory(v: ProductView, category: Option<int>): (s: ProductStep)
    ensures s.outcome.Pass? <==> category.Some?
    ensures s.outcome.Pass? ==> s.view == v.(categoryId := category.value)
    ensures s.outcome.Fail? ==> s == Refuse(v, CATEGORY_NULL)
  {
    if category.None? then Refuse(v, CATEGORY_NULL) else ProductStep(Pass, v.(categoryId := category.value))
  }

  /** changeImageUrl: any value, null included, is accepted. */
  function ChangeImageUrl(v: ProductView, imageUrl: Option<string>): (s: ProductStep)
    ensures s.outcome.Pass? && s.view == v.(imageUrl := imageUrl)
  {
    ProductStep(Pass, v.(imageUrl := imageUrl))
  }

  function UpdateStockQuantity(v: ProductView, quantity: int): (s: ProductStep)
    ensures s.outcome.Pass? <==> quantity >= 0
    ensures s.outcome.Pass? ==> s.view == v.(stockQuantity := quantity)
    ensures s.outcome.Fail? ==> s == Refuse(v, STOCK_NEGATIVE)
  {
    if quantity < 0 then Refuse(v, STOCK_NEGATIVE) else ProductStep(Pass, v.(stockQuantity := quantity))
  }

  /**
   * reduceStock: a non-positive quantity throws; more than is in stock
   * replies false and changes nothing; otherwise the stock drops and it
   * replies true.
   */
  function ReduceStock(v: ProductView, quantity: int): (s: ReduceStep)
    ensures s.result.Failure? <==> quantity <= 0
    ensures s.result.Failure? ==> s == ReduceStep(Failure(IllegalArgument(QUANTITY_NOT_POSITIVE)), v)
    ensures s.result == Success(false) <==> 0 < quantity && v.stockQuantity < quantity
    ensures s.result == Success(true) <==> 0 < quantity <= v.stockQuantity
    ensures s.result != Success(true) ==> s.view == v
    ensures s.result == Success(true) ==> s.view == v.(stockQuantity := v.stockQuantity - quantity)
  {
    if quantity <= 0 then ReduceStep(Failure(IllegalArgument(QUANTITY_NOT_POSITIVE)), v)
    else if v.stockQuantity < quantity then ReduceStep(Success(false), v)
    else ReduceStep(Success(true), v.(stockQuantity := v.stockQuantity - quantity))
  }

  /** addStock with the intended mathematical sum; unlike Inventory.addQuantity, zero is refused. */
  function AddStock(v: ProductView, quantity: int): (s: ProductStep)
    ensures s.outcome.Pass? <==> quantity > 0
    ensures s.outcome.Pass? ==> s.view == v.(stockQuantity := v.stockQuantity + quantity)
    ensures s.outcome.Fail? ==> s == Refuse(v, QUANTITY_NOT_POSITIVE)
  {
    if quantity <= 0 then Refuse(v, QUANTITY_NOT_POSITIVE)
    else ProductStep(Pass, v.(stockQuantity := v.stockQuantity + quantity))
  }

  /** addStock exactly as compiled: `+=` on the int field wraps past 2^31 - 1. */
  function AddStockAsWritten(v: ProductView, quantity: Numbers.int32): (s: ProductStep)
    requires Numbers.INT32_MIN <= v.stockQuantity <= Numbers.INT32_MAX
    ensures s.outcome.Pass? <==> quantity > 0
    ensures s.outcome.Pass? ==> s.view == v.(stockQuantity := Numbers.WrapInt32(v.stockQuantity + quantity as int) as int)
    ensures v.stockQuantity + quantity as int <= Numbers.INT32_MAX ==> s == AddStock(v, quantity as int)
  {
    if quantity <= 0 then Refuse(v, QUANTITY_NOT_POSITIVE)
    else ProductStep(Pass, v.(stockQuantity := Numbers.WrapInt32(v.stockQuantity + quantity as int) as int))
  }

  /** The void mutators, as data. */
  datatype ProductAction =
    | ActivateProduct
    | DeactivateProduct
    | ChangeNameAction(name: Option<Word>)
    | ChangeDescriptionAction(description: Option<Word>)
    | ChangePriceAction(price: Option<int>)
    | ChangeCategoryAction(category: Option<int>)
    | ChangeImageUrlAction(imageUrl: Option<string>)
    | UpdateStockAction(quantity: int)
    | AddStockAction(quantity: int)

  function ApplyProduct(v: ProductView, a: ProductAction): ProductStep {
    match a
    case ActivateProduct => SetActive(v, true)
    case DeactivateProduct => SetActive(v, false)
    case ChangeNameAction(n) => ChangeName(v, n)
    case ChangeDescriptionAction(d) => ChangeDescription(v, d)
    case ChangePriceAction(p) => ChangePrice(v, p)
    case ChangeCategoryAction(c) => ChangeCategory(v, c)
    case ChangeImageUrlAction(u) => ChangeImageUrl(v, u)
    case UpdateStockAction(q) => UpdateStockQuantity(v, q)
    case AddStockAction(q) => AddStock(v, q)
  }

  // ---- invariants and round trips ----

  /** Every mutator, reduceStock included, keeps price and stock non-negative; a refused one changes nothing. */
  lemma MutatorsPreserveValid(v: ProductView, a: ProductAction, q: int)
    requires ProductValid(v)
    ensures ProductValid(ApplyProduct(v, a).view)
    ensures ApplyProduct(v, a).outcome.Fail? ==> ApplyProduct(v, a).view == v
    ensures ProductValid(ReduceStock(v, q).view)
  {
  }

  /** Only activate and deactivate touch the flag, and they touch nothing else. */
  lemma OnlyActivationMovesTheFlag(v: ProductView, a: ProductAction)
    ensures a != ActivateProduct && a != DeactivateProduct ==> ApplyProduct(v, a).view.active == v.active
    ensures a == ActivateProduct || a == DeactivateProduct ==> ApplyProduct(v, a).view.(active := v.active) == v
  {
  }

  /** Adding stock and then reducing it by the same amount brings back the record, replying true. */
  lemma AddThenReduceRoundTrip(v: ProductView, quantity: int)
    requires quantity > 0 && v.stockQuantity >= 0
    ensures ReduceStock(AddStock(v, quantity).view, quantity) == ReduceStep(Success(true), v)
  {
    assert AddStock(v, quantity).view.(stockQuantity := v.stockQuantity) == v;
  }

  /** A reduction that replied true is undone by adding the same amount. */
  lemma ReduceThenAddRoundTrip(v: ProductView, quantity: int)
    requires ReduceStock(v, quantity).result == Success(true)
    ensures AddStock(ReduceStock(v, quantity).view, quantity) == ProductStep(Pass, v)
  {
    assert ReduceStock(v, quantity).view.(stockQuantity := v.stockQuantity) == v;
  }

  /** Adding zero is refused by the product's counter but accepted by the inventory's. */
  lemma ZeroAddDiffersFromInventory(v: ProductView, w: InventoryRules.StockView)
    ensures AddStock(v, 0) == Refuse(v, QUANTITY_NOT_POSITIVE)
    ensures InventoryRules.AddQuantity(w, 0) == InventoryRules.StockStep(Pass, w)
  {
    assert w.(currentQuantity := w.currentQuantity + 0) == w;
  }

  /** Adding 1 to a full stock counter is accepted and leaves a negative stock. */
  lemma AddStockAsWrittenOverflows(v: ProductView)
    requires v.price >= 0 && v.stockQuantity == Numbers.INT32_MAX
    ensures ProductValid(v) && AddStockAsWritten(v, 1).outcome.Pass?
    ensures AddStockAsWritten(v, 1).view.stockQuantity == Numbers.INT32_MIN
    ensures !ProductValid(AddStockAsWritten(v, 1).view)
  {
    assert Numbers.WrapInt32(v.stockQuantity + 1) as int == Numbers.INT32_MIN;
  }
}
