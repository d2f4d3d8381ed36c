/**
 * The order aggregate as objects: OrderItem lines owned by an Order, each
 * mutator updating fields in place. Every method is proved to leave the
 * state that the matching function of OrderRules prescribes.
 */
module Orders {
  import opened Wrappers
  import opened OrderStatuses
  import opened OrderRules
  import Numbers

  class OrderItem {
    /** Generated primary key; None until the owning order is saved. */
    var id: Option<int>
    const order: Order
    /** The referenced product, by id. */
    const productId: int
    var quantity: int
    var unitPrice: int
    var totalPrice: int

    function View(): LineView
      reads this
    {
      LineView(id, productId, quantity, unitPrice, totalPrice)
    }

    ghost predicate Valid()
      reads this
    {
      LineValid(View())
    }

    /** The constructor's assignments, once its checks have passed. */
    constructor (order: Order, productId: int, quantity: int, unitPrice: int)
      requires quantity > 0 && unitPrice >= 0
      ensures this.order == order && View() == NewLine(productId, quantity, unitPrice)
      ensures Valid()
    {
      this.id := None;
      this.order := order;
      this.productId := productId;
      this.quantity := quantity;
      this.unitPrice := unitPrice;
      this.totalPrice := unitPrice * quantity;
    }

    /** The persistence layer's reconstruction of a stored line: every field as stored. */
    constructor Loaded(order: Order, l: LineView)
      ensures this.order == order && View() == l
    {
      this.id := l.id;
      this.order := order;
      this.productId := l.productId;
      this.quantity := l.quantity;
      this.unitPrice := l.unitPrice;
      this.totalPrice := l.totalPrice;
    }

    /** updateQuantity: a non-positive quantity is refused and nothing changes. */
    method UpdateQuantity(newQuantity: int) returns (r: Outcome)
      modifies this
      ensures newQuantity <= 0 ==> r == Fail(IllegalArgument(QUANTITY_NOT_POSITIVE)) && View() == old(View())
      ensures newQuantity > 0 ==> r == Pass && View() == WithQuantity(old(View()), newQuantity)
      ensures old(Valid()) ==> Valid()
    {
      if newQuantity <= 0 {
        return Fail(IllegalArgument(QUANTITY_NOT_POSITIVE));
      }
      quantity := newQuantity;
      totalPrice := unitPrice * newQuantity;
      return Pass;
    }

    /** updateUnitPrice: a null or negative price is refused and nothing changes. */
    method UpdateUnitPrice(newUnitPrice: Option<int>) returns (r: Outcome)
      modifies this
      ensures (newUnitPrice.None? || newUnitPrice.value < 0) ==>
                r == Fail(IllegalArgument(PRICE_INVALID)) && View() == old(View())
      ensures newUnitPrice.Some? && newUnitPrice.value >= 0 ==>
                r == Pass && View() == WithUnitPrice(old(View()), newUnitPrice.value)
      ensures old(Valid()) ==> Valid()
    {
      if newUnitPrice.None? || newUnitPrice.value < 0 {
        return Fail(IllegalArgument(PRICE_INVALID));
      }
      unitPrice := newUnitPrice.value;
      totalPrice := newUnitPrice.value * quantity;
      return Pass;
    }

    /** calculateTotalPrice agrees with the stored total on every valid line, and is never negative there. */
    function CalculateTotalPrice(): (r: int)
      reads this
      ensures LineValid(View()) ==> r == totalPrice && r >= 0
    {
      unitPrice * quantity
    }

    /**
     * equals: the same object, or an item whose id is non-null and equal to
     * this one's. Two unsaved distinct items are never equal.
     */
    function Equals(o: Option<OrderItem>): (r: bool)
      reads this, if o.Some? then {o.value} else {}
      ensures r <==> o.Some? && (o.value == this || (id.Some? && id == o.value.id))
      ensures o.Some? && o.value != this && (id.None? || o.value.id.None?) ==> !r
    {
      if o.Some? && o.value == this then true
      else if o.None? then false
      else id.Some? && id == o.value.id
    }
  }

  /** new OrderItem(order, product, quantity, unitPrice): the four checks in order, then the line. */
  method NewOrderItem(order: Option<Order>, product: Option<int>, quantity: int, unitPrice: Option<int>)
    returns (r: Result<OrderItem>)
    ensures order.None? ==> r == Failure(IllegalArgument(ORDER_NULL))
    ensures order.Some? && LineCheck(product, quantity, unitPrice).Fail? ==>
              r == Failure(LineCheck(product, quantity, unitPrice).error)
    ensures order.Some? && LineCheck(product, quantity, unitPrice).Pass? ==>
              r.Success? && fresh(r.value) && r.value.order == order.value
              && r.value.View() == NewLine(product.value, quantity, unitPrice.value)
  {
    if order.None? {
      return Failure(IllegalArgument(ORDER_NULL));
    }
    var check := LineCheck(product, quantity, unitPrice);
    if check.Fail? {
      return Failure(check.error);
    }
    var item := new OrderItem(order.value, product.value, quantity, unitPrice.value);
    return Success(item);
  }

  /** The views of a sequence of items, position by position. */
  function LinesOf(items: seq<OrderItem>): (r: seq<LineView>)
    reads items
    ensures |r| == |items|
    ensures forall i :: 0 <= i < |items| ==> r[i] == items[i].View()
  {
    if items == [] then [] else LinesOf(items[..|items| - 1]) + [items[|items| - 1].View()]
  }

  /** Items whose views are the given lines have exactly those lines. */
  lemma LinesOfPointwise(items: seq<OrderItem>, lines: seq<LineView>)
    requires |items| == |lines| && forall j :: 0 <= j < |items| ==> items[j].View() == lines[j]
    ensures LinesOf(items) == lines
  {
  }

  lemma LinesOfSnoc(items: seq<OrderItem>, x: OrderItem)
    ensures LinesOf(items + [x]) == LinesOf(items) + [x.View()]
  {
  }

  /** Appending an item and its view keeps the items' views position by position. */
  lemma ViewsSnoc(items: seq<OrderItem>, lines: seq<LineView>, x: OrderItem)
    requires |items| == |lines| && forall j :: 0 <= j < |items| ==> items[j].View() == lines[j]
    ensures forall j :: 0 <= j < |items + [x]| ==> (items + [x])[j].View() == (lines + [x.View()])[j]
  {
    forall j | 0 <= j < |items + [x]|
      ensures (items + [x])[j].View() == (lines + [x.View()])[j]
    {
      if j < |items| {
        assert (items + [x])[j] == items[j];
      }
    }
  }

  /** Appending an item of the order, inside the footprint, keeps every item owned. */
  lemma OwnedSnoc(items: seq<OrderItem>, x: OrderItem, repr: set<object>, o: Order)
    requires forall j :: 0 <= j < |items| ==> items[j] in repr && items[j].order == o
    requires x in repr && x.order == o
    ensures forall j :: 0 <= j < |items + [x]| ==> (items + [x])[j] in repr && (items + [x])[j].order == o
  {
    forall j | 0 <= j < |items + [x]|
      ensures (items + [x])[j] in repr && (items + [x])[j].order == o
    {
      if j < |items| {
        assert (items + [x])[j] == items[j];
      }
    }
  }

  class Order {
    /** Generated primary key; None until saved. */
    var id: Option<int>
    /** The customer, by user id. */
    const customerId: int
    var items: seq<OrderItem>
    var status: OrderStatus
    var totalAmount: int
    var notes: Option<string>
    ghost var Repr: set<object>

    function Lines(): seq<LineView>
      reads this, items
    {
      LinesOf(items)
    }

    function View(): OrderView
      reads this, items
    {
      OrderView(customerId, status, LinesOf(items), totalAmount, notes)
    }

    /** The items belong to this order and lie in its footprint. */
    ghost predicate Owned()
      reads this, Repr
    {
      this in Repr && forall i :: 0 <= i < |items| ==> items[i] in Repr && items[i].order == this
    }

    /** Owned, and the value the order forms is well formed. */
    ghost predicate Valid()
      reads this, Repr
    {
      Owned() && WellFormed(View())
    }

    /** new Order(customer, notes) once the customer is known to be non-null. */
    constructor (customerId: int, notes: Option<string>)
      ensures Valid() && Repr == {this}
      ensures id.None? && View() == OrderView(customerId, PENDING, [], 0, notes)
    {
      this.id := None;
      this.customerId := customerId;
      this.items := [];
      this.status := PENDING;
      this.totalAmount := 0;
      this.notes := notes;
      this.Repr := {this};
    }

    /** Two positions of a well-formed order hold different item objects (their products differ). */
    lemma ItemsAreDistinct()
      requires Valid()
      ensures forall i, j :: 0 <= i < |items| && 0 <= j < |items| && i != j ==> items[i] != items[j]
    {
      forall i, j | 0 <= i < |items| && 0 <= j < |items| && i != j
        ensures items[i] != items[j]
      {
        if i < j {
          assert Lines()[i].productId != Lines()[j].productId;
        } else {
          assert Lines()[j].productId != Lines()[i].productId;
        }
      }
    }

    /** recalculateTotal: the left-to-right sum of the line totals. */
    method RecalculateTotal()
      modifies this
      ensures items == old(items) && Repr == old(Repr) && id == old(id)
      ensures View() == old(View()).(totalAmount := SumTotals(old(Lines())))
    {
      ghost var lines := Lines();
      var sum := 0;
      var i := 0;
      while i < |items|
        modifies {}
        invariant 0 <= i <= |items|
        invariant sum == SumTotals(lines[..i])
      {
        SumTotalsPrefix(lines, i);
        sum := sum + items[i].totalPrice;
        i := i + 1;
      }
      assert lines[..i] == lines;
      totalAmount := sum;
    }

    /** The shared tail of addItem and updateItemQuantity: line i gets quantity q, then the total is recalculated. */
    method SetQuantityAt(i: nat, q: int) returns (r: Outcome)
      requires Valid() && i < |items|
      modifies Repr
      ensures Valid() && Repr == old(Repr)
      ensures q <= 0 ==> Step(r, View()) == Refuse(old(View()), IllegalArgument(QUANTITY_NOT_POSITIVE))
      ensures q > 0 ==> Step(r, View()) == Accept(old(View()), old(Lines())[i := WithQuantity(old(Lines())[i], q)])
    {
      ghost var v := View();
      ItemsAreDistinct();
      var item := items[i];
      r := item.UpdateQuantity(q);
      if r.Fail? {
        LinesOfPointwise(items, v.lines);
        return;
      }
      ghost var lines := v.lines[i := WithQuantity(v.lines[i], q)];
      LinesOfPointwise(items, lines);
      RecalculateTotal();
      SetQuantityPreservesWellFormed(v, i, q);
    }

    /** addItem: see OrderRules.AddItem. */
    method AddItem(product: Option<int>, quantity: int, unitPrice: Option<int>) returns (r: Outcome)
      requires Valid()
      modifies Repr
      ensures Valid() && fresh(Repr - old(Repr))
      ensures Step(r, View()) == OrderRules.AddItem(old(View()), product, quantity, unitPrice)
    {
      if !status.CanBeModified() {
        return Fail(IllegalState(CANNOT_MODIFY + status.Name()));
      }
      r := AddToPending(product, quantity, unitPrice);
    }

    /** addItem once the status check has passed: merge into the product's line, or append a new one. */
    method AddToPending(product: Option<int>, quantity: int, unitPrice: Option<int>) returns (r: Outcome)
      requires Valid() && status == PENDING
      modifies Repr
      ensures Valid() && fresh(Repr - old(Repr))
      ensures Step(r, View()) == OrderRules.AddItem(old(View()), product, quantity, unitPrice)
    {
      ghost var v := View();
      var found, i := FindLine(product);
      if found.Fail? {
        assert OrderRules.AddItem(v, product, quantity, unitPrice) == Refuse(v, NullPointer);
        return found;
      }
      if product.Some? && i < |items| {
        r := MergeLine(product.value, quantity, unitPrice, i);
      } else {
        r := AddNewLine(product, quantity, unitPrice);
      }
    }

    /** addItem when the product already has a line: the quantities are added on that line. */
    method MergeLine(productId: int, quantity: int, unitPrice: Option<int>, i: nat) returns (r: Outcome)
      requires Valid() && status == PENDING && i < |items| && i == FindProduct(Lines(), productId)
      modifies Repr
      ensures Valid() && Repr == old(Repr)
      ensures Step(r, View()) == OrderRules.AddItem(old(View()), Some(productId), quantity, unitPrice)
    {
      ghost var v := View();
      assert v.lines == Lines() && v.lines[i] == items[i].View();
      var q := items[i].quantity + quantity;
      assert q == v.lines[i].quantity + quantity;
      AddItemMergePath(v, productId, quantity, unitPrice, i);
      ghost var expected := OrderRules.AddItem(v, Some(productId), quantity, unitPrice);
      r := SetQuantityAt(i, q);
      assert Step(r, View()) == expected;
    }

    /** addItem when the product has no line yet: construct the item and append it. */
    method AddNewLine(product: Option<int>, quantity: int, unitPrice: Option<int>) returns (r: Outcome)
      requires Valid() && status == PENDING
      requires product.None? ==> items == []
      requires product.Some? ==> FindProduct(Lines(), product.value) == |items|
      modifies this
      ensures Valid() && fresh(Repr - old(Repr))
      ensures Step(r, View()) == OrderRules.AddItem(old(View()), product, quantity, unitPrice)
    {
      ghost var v := View();
      AddItemAppendPath(v, product, quantity, unitPrice);
      var created := NewOrderItem(Some(this), product, quantity, unitPrice);
      if created.Failure? {
        return Fail(created.error);
      }
      AppendLine(created.value);
      return Pass;
    }

    /**
     * addItem's search loop: the position of the product's line. The loop
     * dereferences the product, so a null product throws as soon as there is a line.
     */
    method FindLine(product: Option<int>) returns (r: Outcome, i: nat)
      ensures r.Fail? <==> product.None? && items != []
      ensures r.Fail? ==> r == Fail(NullPointer)
      ensures r.Pass? && product.Some? ==> i == FindProduct(Lines(), product.value)
    {
      ghost var v := Lines();
      i := 0;
      while i < |items| && (product.None? || items[i].productId != product.value)
        invariant 0 <= i <= |items|
        invariant forall j :: 0 <= j < i ==> product.Some? && v[j].productId != product.value
      {
        if product.None? {
          return Fail(NullPointer), i;
        }
        i := i + 1;
      }
      return Pass, i;
    }

    /** items.add(orderItem) followed by recalculateTotal. */
    method AppendLine(item: OrderItem)
      requires Valid() && item.order == this && item !in Repr && LineValid(item.View())
      requires FindProduct(Lines(), item.productId) == |items|
      modifies this
      ensures Valid() && Repr == old(Repr) + {item}
      ensures View() == Accept(old(View()), old(Lines()) + [old(item.View())]).view
    {
      ghost var v := View();
      assert v.lines == Lines();
      AppendPreservesWellFormed(v, item.View());
      ghost var s := Accept(v, v.lines + [item.View()]);
      PushItem(item);
      RecalculateTotal();
      assert View() == s.view;
    }

    /** The list append itself: the item joins the list and the footprint, the total is not yet updated. */
    method PushItem(item: OrderItem)
      requires Owned() && item.order == this && item !in Repr
      modifies this
      ensures Owned() && Repr == old(Repr) + {item}
      ensures View() == old(View()).(lines := old(Lines()) + [old(item.View())])
    {
      LinesOfSnoc(items, item);
      ghost var lines := LinesOf(items + [item]);
      OwnedSnoc(items, item, Repr + {item}, this);
      items := items + [item];
      Repr := Repr + {item};
      assert Lines() == lines;
    }

    /** Loading: one stored line becomes a fresh item at the end of the list. */
    method AppendLoaded(l: LineView)
      requires Owned()
      modifies this
      ensures Owned() && fresh(Repr - old(Repr))
      ensures View() == old(View()).(lines := old(Lines()) + [l])
    {
      var item := new OrderItem.Loaded(this, l);
      PushItem(item);
    }

    /** Loading: the stored key, status and total are written back. */
    method SetStored(id: int, status: OrderStatus, totalAmount: int)
      requires Owned()
      modifies this
      ensures Owned() && Repr == old(Repr) && this.id == Some(id)
      ensures View() == old(View()).(status := status, totalAmount := totalAmount)
    {
      ghost var lines := Lines();
      this.id := Some(id);
      this.status := status;
      this.totalAmount := totalAmount;
      assert Lines() == lines;
    }

    /** removeItem: see OrderRules.RemoveItem; the kept items are collected, then replace the list. */
    method RemoveItem(itemId: Option<int>) returns (r: Outcome)
      requires Valid()
      modifies this
      ensures Valid() && Repr == old(Repr)
      ensures Step(r, View()) == OrderRules.RemoveItem(old(View()), itemId)
    {
      ghost var v := View();
      if !status.CanBeModified() {
        return Fail(IllegalState(CANNOT_MODIFY + status.Name()));
      }
      var kept;
      r, kept := KeptItems(itemId);
      if r.Fail? {
        return;
      }
      RemoveKept(itemId, kept);
    }

    /** The removeIf write-back: the kept items replace the list and the total is recalculated. */
    method RemoveKept(ghost itemId: Option<int>, kept: seq<OrderItem>)
      requires Valid() && status == PENDING && AllSaved(Lines()) && LinesOf(kept) == Without(Lines(), itemId)
      requires forall j :: 0 <= j < |kept| ==> kept[j] in Repr && kept[j].order == this
      modifies this
      ensures Valid() && Repr == old(Repr)
      ensures Step(Pass, View()) == OrderRules.RemoveItem(old(View()), itemId)
    {
      ghost var v := View();
      assert v.lines == Lines();
      RemoveItemPath(v, itemId);
      RemoveItemPreservesWellFormed(v, itemId);
      ghost var s := Accept(v, LinesOf(kept));
      assert s == OrderRules.RemoveItem(v, itemId);
      SetItems(kept);
      RecalculateTotal();
      assert View() == s.view;
    }

    /** The list write-back itself: the kept items become the list, the total is not yet updated. */
    method SetItems(kept: seq<OrderItem>)
      requires Owned() && forall j :: 0 <= j < |kept| ==> kept[j] in Repr && kept[j].order == this
      modifies this
      ensures Owned() && Repr == old(Repr)
      ensures View() == old(View()).(lines := old(LinesOf(kept)))
    {
      ghost var lines := LinesOf(kept);
      items := kept;
      assert Lines() == lines;
    }

    /**
     * removeIf's scan: every item's id is dereferenced, so an unsaved item
     * throws; otherwise the items whose id differs, in order.
     */
    method KeptItems(itemId: Option<int>) returns (r: Outcome, kept: seq<OrderItem>)
      requires Owned()
      ensures r.Fail? <==> !AllSaved(Lines())
      ensures r.Fail? ==> r == Fail(NullPointer)
      ensures r.Pass? ==> LinesOf(kept) == Without(Lines(), itemId)
      ensures forall j :: 0 <= j < |kept| ==> kept[j] in Repr && kept[j].order == this
    {
      ghost var v := Lines();
      ghost var keptLines: seq<LineView> := [];
      kept := [];
      var i := 0;
      while i < |items|
        invariant 0 <= i <= |items|
        invariant forall j :: 0 <= j < i ==> v[j].id.Some?
        invariant keptLines == Without(v[..i], itemId) && |kept| == |keptLines|
        invariant forall j :: 0 <= j < |kept| ==> kept[j].View() == keptLines[j]
        invariant forall j :: 0 <= j < |kept| ==> kept[j] in Repr && kept[j].order == this
      {
        if items[i].id.None? {
          assert !AllSaved(v);
          return Fail(NullPointer), kept;
        }
        WithoutStep(v, i, itemId);
        if items[i].id != itemId {
          ViewsSnoc(kept, keptLines, items[i]);
          OwnedSnoc(kept, items[i], Repr, this);
          kept := kept + [items[i]];
          keptLines := keptLines + [v[i]];
        }
        i := i + 1;
      }
      assert v[..i] == v;
      LinesOfPointwise(kept, keptLines);
      return Pass, kept;
    }

    /** updateItemQuantity: see OrderRules.UpdateItemQuantity. */
    method UpdateItemQuantity(itemId: Option<int>, newQuantity: int) returns (r: Outcome)
      requires Valid()
      modifies Repr
      ensures Valid() && Repr == old(Repr)
      ensures Step(r, View()) == OrderRules.UpdateItemQuantity(old(View()), itemId, newQuantity)
    {
      if !status.CanBeModified() {
        return Fail(IllegalState(CANNOT_MODIFY + status.Name()));
      }
      r := UpdatePendingQuantity(itemId, newQuantity);
    }

    /** updateItemQuantity once the status check has passed: find the line, then set its quantity. */
    method UpdatePendingQuantity(itemId: Option<int>, newQuantity: int) returns (r: Outcome)
      requires Valid() && status == PENDING
      modifies Repr
      ensures Valid() && Repr == old(Repr)
      ensures Step(r, View()) == OrderRules.UpdateItemQuantity(old(View()), itemId, newQuantity)
    {
      ghost var v := View();
      var i := FindItemIndex(itemId);
      if i == |items| {
        return Fail(IllegalArgument(ITEM_NOT_FOUND));
      }
      if items[i].id.None? {
        return Fail(NullPointer);
      }
      UpdateItemQuantityPath(v, itemId, newQuantity, i);
      ghost var expected := OrderRules.UpdateItemQuantity(v, itemId, newQuantity);
      r := SetQuantityAt(i, newQuantity);
      assert Step(r, View()) == expected;
    }

    /** updateItemQuantity's search: the stream's filter stops at the first line with that id, or at an unsaved line. */
    method FindItemIndex(itemId: Option<int>) returns (i: nat)
      ensures i == FindItem(Lines(), itemId)
    {
      ghost var v := Lines();
      i := 0;
      while i < |items| && items[i].id.Some? && items[i].id != itemId
        invariant 0 <= i <= |items|
        invariant forall j :: 0 <= j < i ==> v[j].id.Some? && v[j].id != itemId
      {
        i := i + 1;
      }
    }

    method Confirm() returns (r: Outcome)
      requires Valid()
      modifies this
      ensures Valid() && Repr == old(Repr)
      ensures r == OrderRules.Confirm(old(View())).outcome && View() == OrderRules.Confirm(old(View())).view
    {
      if status != PENDING {
        return Fail(IllegalState(CONFIRM_NOT_PENDING));
      }
      if |items| == 0 {
        return Fail(IllegalState(CONFIRM_EMPTY));
      }
      status := CONFIRMED;
      return Pass;
    }

    method StartPreparing() returns (r: Outcome)
      requires Valid()
      modifies this
      ensures Valid() && Repr == old(Repr)
      ensures r == OrderRules.StartPreparing(old(View())).outcome
      ensures View() == OrderRules.StartPreparing(old(View())).view
    {
      if status != CONFIRMED {
        return Fail(IllegalState(PREPARE_NOT_CONFIRMED));
      }
      status := PREPARING;
      return Pass;
    }

    method MarkAsReady() returns (r: Outcome)
      requires Valid()
      modifies this
      ensures Valid() && Repr == old(Repr)
      ensures r == OrderRules.MarkAsReady(old(View())).outcome
      ensures View() == OrderRules.MarkAsReady(old(View())).view
    {
      if status != PREPARING {
        return Fail(IllegalState(READY_NOT_PREPARING));
      }
      status := READY;
      return Pass;
    }

    method Deliver() returns (r: Outcome)
      requires Valid()
      modifies this
      ensures Valid() && Repr == old(Repr)
      ensures r == OrderRules.Deliver(old(View())).outcome && View() == OrderRules.Deliver(old(View())).view
    {
      if status != READY {
        return Fail(IllegalState(DELIVER_NOT_READY));
      }
      status := DELIVERED;
      return Pass;
    }

    method Cancel() returns (r: Outcome)
      requires Valid()
      modifies this
      ensures Valid() && Repr == old(Repr)
      ensures r == OrderRules.Cancel(old(View())).outcome && View() == OrderRules.Cancel(old(View())).view
    {
      if !status.CanBeCancelled() {
        return Fail(IllegalState(CANNOT_CANCEL + status.Name()));
      }
      status := CANCELLED;
      return Pass;
    }

    method UpdateNotes(notes: Option<string>)
      requires Valid()
      modifies this
      ensures Valid() && Repr == old(Repr)
      ensures View() == OrderRules.UpdateNotes(old(View()), notes).view
    {
      this.notes := notes;
    }

    /** getItemCount: the number of lines. */
    function ItemCount(): (r: nat)
      reads this
      ensures r == |items|
    {
      |items|
    }

    /**
     * getTotalProductCount: the units over all lines, summed by IntStream.sum
     * in int arithmetic, so the result wraps modulo 2^32. While the true sum
     * fits in an int it is that sum, at least one per line when every
     * quantity is positive.
     */
    function TotalProductCount(): (r: int)
      reads this, items
      ensures Numbers.INT32_MIN <= r <= Numbers.INT32_MAX
      ensures (r - SumQuantities(LinesOf(items))) % 0x1_0000_0000 == 0
      ensures Numbers.INT32_MIN <= SumQuantities(LinesOf(items)) <= Numbers.INT32_MAX ==> r == SumQuantities(LinesOf(items))
      ensures (forall i :: 0 <= i < |items| ==> items[i].quantity > 0) && SumQuantities(LinesOf(items)) <= Numbers.INT32_MAX
              ==> r >= ItemCount()
    {
      SumQuantitiesAtLeastLines(LinesOf(items));
      Numbers.WrapInt32(SumQuantities(LinesOf(items))) as int
    }

    /** Two lines of 2^30 units each: the Java sum wraps to -2^31, below the two lines. */
    static lemma TotalProductCountWraps(lines: seq<LineView>)
      requires |lines| == 2 && lines[0].quantity == 0x4000_0000 && lines[1].quantity == 0x4000_0000
      ensures SumQuantities(lines) == 0x8000_0000
      ensures Numbers.WrapInt32(SumQuantities(lines)) as int == Numbers.INT32_MIN < |lines|
    {
      assert lines[..|lines| - 1] == lines[..1];
      assert lines[..1][..0] == [];
      assert SumQuantities(lines[..1]) == SumQuantities(lines[..1][..0]) + lines[0].quantity;
    }

    function IsActive(): (r: bool)
      reads this
      ensures r <==> status in {PENDING, CONFIRMED, PREPARING, READY}
    {
      status.IsActive()
    }

    function CanBeModified(): (r: bool)
      reads this
      ensures r <==> status == PENDING
    {
      status.CanBeModified()
    }

    function CanBeCancelled(): (r: bool)
      reads this
      ensures r <==> status in {PENDING, CONFIRMED}
    {
      status.CanBeCancelled()
    }
  }

  /** new Order(customer, notes): a null customer is refused; otherwise an empty PENDING order. */
  method NewOrder(customer: Option<int>, notes: Option<string>) returns (r: Result<Order>)
    ensures customer.None? <==> r == Failure(IllegalArgument(CUSTOMER_NULL))
    ensures customer.Some? <==> r.Success?
    ensures r.Success? ==>
              fresh(r.value) && r.value.Valid() && r.value.Repr == {r.value} && r.value.id.None?
              && r.value.View() == OrderView(customer.value, PENDING, [], 0, notes)
  {
    if customer.None? {
      return Failure(IllegalArgument(CUSTOMER_NULL));
    }
    var o := new Order(customer.value, notes);
    return Success(o);
  }

  /**
   * What loading a stored row yields: a fresh order with fresh item objects
   * whose fields are the stored ones, under the given key.
   */
  method Materialize(id: int, v: OrderView) returns (o: Order)
    requires WellFormed(v)
    ensures fresh(o.Repr) && o.Valid() && o.id == Some(id) && o.View() == v
  {
    o := new Order(v.customerId, v.notes);
    AppendAll(o, v.lines);
    o.SetStored(id, v.status, v.totalAmount);
    assert o.View() == v;
  }

  /** The stored lines appended one by one, in order, as fresh item objects. */
  method AppendAll(o: Order, lines: seq<LineView>)
    requires o.Owned()
    modifies o
    ensures o.Owned() && fresh(o.Repr - old(o.Repr))
    ensures o.View() == old(o.View()).(lines := old(o.Lines()) + lines)
  {
    ghost var start := o.View();
    var i := 0;
    while i < |lines|
      invariant 0 <= i <= |lines|
      invariant o.Owned() && fresh(o.Repr - old(o.Repr))
      invariant o.View() == start.(lines := start.lines + lines[..i])
    {
      assert start.lines + lines[..i + 1] == (start.lines + lines[..i]) + [lines[i]];
      o.AppendLoaded(lines[i]);
      i := i + 1;
    }
    assert lines[..i] == lines;
  }
}
