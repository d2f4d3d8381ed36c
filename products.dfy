/**
 * The Product entity as an object whose mutators update its fields in
 * place; each method is proved to leave the record ProductRules
 * prescribes. The registration and last-activity-change clock stamps are
 * not modelled.
 */
module Products {
  import opened Wrappers
  import opened Words
  import opened ActivityStatuses
  import opened ProductRules

  class Product {
    /** Generated primary key; None until saved. */
    var id: Option<int>
    var name: Word
    var description: Word
    /** The price in cents. */
    var price: int
    /** The owning category, by id. */
    var categoryId: int
    var imageUrl: Option<string>
    var stockQuantity: int
    var activityStatus: ActivityStatus

    function View(): ProductView
      reads this
    {
      ProductView(name, description, price, categoryId, imageUrl, stockQuantity, activityStatus.IsActive())
    }

    ghost predicate Valid()
      reads this
    {
      ProductValid(View())
    }

    /** The constructor's assignments, once its checks have passed. */
    constructor (v: ProductView)
      ensures id.None? && View() == v
    {
      id := None;
      name := v.name;
      description := v.description;
      price := v.price;
      categoryId := v.categoryId;
      imageUrl := v.imageUrl;
      stockQuantity := v.stockQuantity;
      activityStatus := ActivityStatus(v.active);
    }

    function IsActive(): (r: bool)
      reads this
      ensures r == View().active
    {
      activityStatus.IsActive()
    }

    method Deactivate()
      modifies this
      ensures id == old(id) && View() == SetActive(old(View()), false).view
    {
      activityStatus := ActivityStatus(false);
    }

    method Activate()
      modifies this
      ensures id == old(id) && View() == SetActive(old(View()), true).view
    {
      activityStatus := ActivityStatus(true);
    }

    method ChangeName(n: Option<Word>) returns (r: Outcome)
      modifies this
      ensures id == old(id) && ProductStep(r, View()) == ProductRules.ChangeName(old(View()), n)
    {
      if n.None? {
        return Fail(IllegalArgument(NAME_NULL));
      }
      name := n.value;
      return Pass;
    }

    method ChangeDescription(d: Option<Word>) returns (r: Outcome)
      modifies this
      ensures id == old(id) && ProductStep(r, View()) == ProductRules.ChangeDescription(old(View()), d)
    {
      if d.None? {
        return Fail(IllegalArgument(DESCRIPTION_NULL));
      }
      description := d.value;
      return Pass;
    }

    method ChangePrice(p: Option<int>) returns (r: Outcome)
      modifies this
      ensures id == old(id) && ProductStep(r, View()) == ProductRules.ChangePrice(old(View()), p)
    {
      if p.None? {
        return Fail(IllegalArgument(PRICE_NULL));
      }
      if p.value < 0 {
        return Fail(IllegalArgument(PRICE_NEGATIVE));
      }
      price := p.value;
      return Pass;
    }

    method ChangeCategory(c: Option<int>) returns (r: Outcome)
      modifies this
      ensures id == old(id) && ProductStep(r, View()) == ProductRules.ChangeCategory(old(View()), c)
    {
      if c.None? {
        return Fail(IllegalArgument(CATEGORY_NULL));
      }
      categoryId := c.value;
      return Pass;
    }

    method ChangeImageUrl(u: Option<string>)
      modifies this
      ensures id == old(id) && View() == ProductRules.ChangeImageUrl(old(View()), u).view
    {
      imageUrl := u;
    }

    method UpdateStockQuantity(quantity: int) returns (r: Outcome)
      modifies this
      ensures id == old(id) && ProductStep(r, View()) == ProductRules.UpdateStockQuantity(old(View()), quantity)
    {
      if quantity < 0 {
        return Fail(IllegalArgument(STOCK_NEGATIVE));
      }
      stockQuantity := quantity;
      return Pass;
    }

    method ReduceStock(quantity: int) returns (r: Result<bool>)
      modifies this
      ensures id == old(id) && ReduceStep(r, View()) == ProductRules.ReduceStock(old(View()), quantity)
    {
      if quantity <= 0 {
        return Failure(IllegalArgument(QUANTITY_NOT_POSITIVE));
      }
      if stockQuantity < quantity {
        return Success(false);
      }
      stockQuantity := stockQuantity - quantity;
      return Success(true);
    }

    /** addStock, with the intended mathematical sum (see ProductRules.AddStockAsWritten). */
    method AddStock(quantity: int) returns (r: Outcome)
      modifies this
      ensures id == old(id) && ProductStep(r, View()) == ProductRules.AddStock(old(View()), quantity)
    {
      if quantity <= 0 {
        return Fail(IllegalArgument(QUANTITY_NOT_POSITIVE));
      }
      stockQuantity := stockQuantity + quantity;
      return Pass;
    }
  }

  /** new Product(...): the checks in source order, then an active, valid record. */
  method NewProduct(name: Option<Word>, description: Option<Word>, price: Option<int>, category: Option<int>,
                    imageUrl: Option<string>, stockQuantity: int) returns (r: Result<Product>)
    ensures var expected := ProductRules.NewProduct(name, description, price, category, imageUrl, stockQuantity);
            (r.Failure? <==> expected.Failure?) && (r.Failure? ==> r.error == expected.error)
            && (r.Success? ==> fresh(r.value) && r.value.id.None? && r.value.View() == expected.value && r.value.Valid())
  {
    var made := ProductRules.NewProduct(name, description, price, category, imageUrl, stockQuantity);
    if made.Failure? {
      return Failure(made.error);
    }
    var p := new Product(made.value);
    return Success(p);
  }
}
