/**
 * The order aggregate as values: what an order line and an order look like
 * from outside, and, for each mutator of Order, the outcome and the new
 * state it produces. The classes in module Orders are proved to follow
 * these functions; the invariants of the aggregate are proved here.
 * Money is integer cents.
 */
module OrderRules {
  import opened Wrappers
  import opened OrderStatuses

  const ORDER_NULL := "Order cannot be null"
  const PRODUCT_NULL := "Product cannot be null"
  const QUANTITY_NOT_POSITIVE := "Quantity must be positive"
  const PRICE_INVALID := "Unit price cannot be null or negative"
  const CUSTOMER_NULL := "Customer cannot be null"
  const CANNOT_MODIFY := "Cannot modify order in status: "
  const ITEM_NOT_FOUND := "Item not found in order"
  const CONFIRM_NOT_PENDING := "Can only confirm pending orders"
  const CONFIRM_EMPTY := "Cannot confirm order with no items"
  const PREPARE_NOT_CONFIRMED := "Can only start preparing confirmed orders"
  const READY_NOT_PREPARING := "Can only mark preparing orders as ready"
  const DELIVER_NOT_READY := "Can only deliver ready orders"
  const CANNOT_CANCEL := "Cannot cancel order in status: "

  /** One order line: generated id (None until saved), product id, quantity, unit and line price. */
  datatype LineView = LineView(id: Option<int>, productId: int, quantity: int, unitPrice: int, totalPrice: int)

  /** An order: its customer, status, lines in insertion order, running total and notes. */
  datatype OrderView = OrderView(
    customerId: int,
    status: OrderStatus,
    lines: seq<LineView>,
    totalAmount: int,
    notes: Option<string>)

  /** What a mutator reports and the order it leaves behind. */
  datatype Step = Step(outcome: Outcome, view: OrderView)

  /** The line invariant every OrderItem mutator keeps. */
  predicate LineValid(l: LineView) {
    l.quantity > 0 && l.unitPrice >= 0 && l.totalPrice == l.unitPrice * l.quantity
  }

  /** The left-to-right sum of the line prices, as recalculateTotal's reduce computes it. */
  function SumTotals(lines: seq<LineView>): int
    decreases |lines|
  {
    if lines == [] then 0 else SumTotals(lines[..|lines| - 1]) + lines[|lines| - 1].totalPrice
  }

  /** The sum of the line quantities (getTotalProductCount). */
  function SumQuantities(lines: seq<LineView>): int
    decreases |lines|
  {
    if lines == [] then 0 else SumQuantities(lines[..|lines| - 1]) + lines[|lines| - 1].quantity
  }

  predicate DistinctProducts(lines: seq<LineView>) {
    forall i, j :: 0 <= i < j < |lines| ==> lines[i].productId != lines[j].productId
  }

  predicate AllSaved(lines: seq<LineView>) {
    forall i :: 0 <= i < |lines| ==> lines[i].id.Some?
  }

  /**
   * The aggregate invariant: every line valid, at most one line per product,
   * the total equal to the sum of the lines, and an order past PENDING
   * (other than a cancelled one) never empty.
   */
  predicate WellFormed(v: OrderView) {
    (forall i :: 0 <= i < |v.lines| ==> LineValid(v.lines[i]))
    && DistinctProducts(v.lines)
    && v.totalAmount == SumTotals(v.lines)
    && (v.status in {CONFIRMED, PREPARING, READY, DELIVERED} ==> v.lines != [])
  }

  /** The OrderItem constructor's checks after the order check, in source order. */
  function LineCheck(product: Option<int>, quantity: int, unitPrice: Option<int>): (r: Outcome)
    ensures r.Pass? <==> product.Some? && quantity > 0 && unitPrice.Some? && unitPrice.value >= 0
    ensures product.None? ==> r == Fail(IllegalArgument(PRODUCT_NULL))
    ensures product.Some? && quantity <= 0 ==> r == Fail(IllegalArgument(QUANTITY_NOT_POSITIVE))
    ensures product.Some? && quantity > 0 && r.Fail? ==> r == Fail(IllegalArgument(PRICE_INVALID))
  {
    if product.None? then Fail(IllegalArgument(PRODUCT_NULL))
    else if quantity <= 0 then Fail(IllegalArgument(QUANTITY_NOT_POSITIVE))
    else if unitPrice.None? || unitPrice.value < 0 then Fail(IllegalArgument(PRICE_INVALID))
    else Pass
  }

  /** A freshly constructed line: unsaved, total = unit price times quantity. */
  function NewLine(productId: int, quantity: int, unitPrice: int): (l: LineView)
    ensures quantity > 0 && unitPrice >= 0 ==> LineValid(l)
    ensures l.id.None? && l.productId == productId && l.quantity == quantity && l.unitPrice == unitPrice
  {
    LineView(None, productId, quantity, unitPrice, unitPrice * quantity)
  }

  /** updateQuantity's effect on a line: quantity replaced, price kept, total recomputed. */
  function WithQuantity(l: LineView, q: int): (r: LineView)
    ensures l.unitPrice >= 0 && q > 0 ==> LineValid(r)
    ensures r.id == l.id && r.productId == l.productId && r.unitPrice == l.unitPrice && r.quantity == q
  {
    l.(quantity := q, totalPrice := l.unitPrice * q)
  }

  /** updateUnitPrice's effect on a line: price replaced, quantity kept, total recomputed. */
  function WithUnitPrice(l: LineView, p: int): (r: LineView)
    ensures l.quantity > 0 && p >= 0 ==> LineValid(r)
    ensures r.id == l.id && r.productId == l.productId && r.quantity == l.quantity && r.unitPrice == p
  {
    l.(unitPrice := p, totalPrice := p * l.quantity)
  }

  /** The index of the first line for the product, or |lines| when there is none. */
  function FindProduct(lines: seq<LineView>, productId: int): (k: nat)
    ensures k <= |lines|
    ensures k < |lines| ==> lines[k].productId == productId
    ensures forall j :: 0 <= j < k ==> lines[j].productId != productId
  {
    if lines == [] then 0
    else if lines[0].productId == productId then 0
    else 1 + FindProduct(lines[1..], productId)
  }

  /**
   * The index where updateItemQuantity's loop stops: the first line whose id
   * is null (the equals call throws there) or equals the given id; |lines| if none.
   */
  function FindItem(lines: seq<LineView>, itemId: Option<int>): (k: nat)
    ensures k <= |lines|
    ensures k < |lines| ==> lines[k].id.None? || lines[k].id == itemId
    ensures forall j :: 0 <= j < k ==> lines[j].id.Some? && lines[j].id != itemId
  {
    if lines == [] then 0
    else if lines[0].id.None? || lines[0].id == itemId then 0
    else 1 + FindItem(lines[1..], itemId)
  }

  /** removeIf's result: the lines whose id differs from the given one, in order. */
  function Without(lines: seq<LineView>, itemId: Option<int>): (r: seq<LineView>)
    ensures |r| <= |lines|
    decreases |lines|
  {
    if lines == [] then []
    else
      var last := lines[|lines| - 1];
      Without(lines[..|lines| - 1], itemId) + (if last.id != itemId then [last] else [])
  }

  function Refuse(v: OrderView, e: Error): Step {
    Step(Fail(e), v)
  }

  /** A successful item mutation: the new lines and the total recalculated from them. */
  function Accept(v: OrderView, lines: seq<LineView>): (s: Step)
    ensures s.outcome.Pass? && s.view.lines == lines && s.view.totalAmount == SumTotals(lines)
  {
    Step(Pass, v.(lines := lines, totalAmount := SumTotals(lines)))
  }

  /** The status guard shared by the three item mutators. */
  function ModifyRefusal(v: OrderView): Step {
    Refuse(v, IllegalState(CANNOT_MODIFY + v.status.Name()))
  }

  /**
   * addItem: refused unless PENDING; the loop dereferences the product, so a
   * null product throws there if there is any line; a product already present
   * merges into its line (quantity added, its unit price kept, the given
   * price ignored); otherwise a new line is appended after the constructor's checks.
   */
  function AddItem(v: OrderView, product: Option<int>, quantity: int, unitPrice: Option<int>): (s: Step)
    ensures !v.status.CanBeModified() ==> s == ModifyRefusal(v)
    ensures s.outcome.Fail? ==> s.view == v
    ensures s.outcome.Pass? ==>
              v.status == PENDING && product.Some?
              && s.view == v.(lines := s.view.lines, totalAmount := SumTotals(s.view.lines))
  {
    if !v.status.CanBeModified() then ModifyRefusal(v)
    else if product.None? && v.lines != [] then Refuse(v, NullPointer)
    else if product.Some? && FindProduct(v.lines, product.value) < |v.lines| then
      var k := FindProduct(v.lines, product.value);
      var q := v.lines[k].quantity + quantity;
      if q <= 0 then Refuse(v, IllegalArgument(QUANTITY_NOT_POSITIVE))
      else Accept(v, v.lines[k := WithQuantity(v.lines[k], q)])
    else
      match LineCheck(product, quantity, unitPrice)
      case Fail(e) => Refuse(v, e)
      case Pass => Accept(v, v.lines + [NewLine(product.value, quantity, unitPrice.value)])
  }

  /**
   * removeItem: refused unless PENDING; the predicate dereferences every
   * line's id, so an unsaved line throws before anything is removed;
   * otherwise every line with that id goes (none for a null id).
   */
  function RemoveItem(v: OrderView, itemId: Option<int>): (s: Step)
    ensures !v.status.CanBeModified() ==> s == ModifyRefusal(v)
    ensures s.outcome.Fail? ==> s.view == v
    ensures s.outcome.Pass? ==>
              v.status == PENDING && s.view == v.(lines := Without(v.lines, itemId), totalAmount := s.view.totalAmount)
    ensures s.outcome.Pass? && itemId.None? ==> s.view.lines == v.lines
  {
    if !v.status.CanBeModified() then ModifyRefusal(v)
    else if !AllSaved(v.lines) then Refuse(v, NullPointer)
    else
      (if itemId.None? then WithoutNothing(v.lines); Accept(v, Without(v.lines, itemId))
       else Accept(v, Without(v.lines, itemId)))
  }

  /** updateItemQuantity: refused unless PENDING; the first line with that id gets the new quantity. */
  function UpdateItemQuantity(v: OrderView, itemId: Option<int>, newQuantity: int): (s: Step)
    ensures !v.status.CanBeModified() ==> s == ModifyRefusal(v)
    ensures s.outcome.Fail? ==> s.view == v
    ensures v.status == PENDING && AllSaved(v.lines) && (forall i :: 0 <= i < |v.lines| ==> v.lines[i].id != itemId) ==>
              s == Refuse(v, IllegalArgument(ITEM_NOT_FOUND))
    ensures s.outcome.Pass? ==>
              v.status == PENDING && newQuantity > 0 && |s.view.lines| == |v.lines|
              && s.view == v.(lines := s.view.lines, totalAmount := SumTotals(s.view.lines))
  {
    if !v.status.CanBeModified() then ModifyRefusal(v)
    else
      var k := FindItem(v.lines, itemId);
      if k == |v.lines| then Refuse(v, IllegalArgument(ITEM_NOT_FOUND))
      else if v.lines[k].id.None? then Refuse(v, NullPointer)
      else if newQuantity <= 0 then Refuse(v, IllegalArgument(QUANTITY_NOT_POSITIVE))
      else Accept(v, v.lines[k := WithQuantity(v.lines[k], newQuantity)])
  }

  /** confirm: only from PENDING, and only with at least one line. */
  function Confirm(v: OrderView): (s: Step)
    ensures s.outcome.Pass? <==> v.status == PENDING && v.lines != []
    ensures s.outcome.Pass? ==> s.view == v.(status := CONFIRMED)
    ensures s.outcome.Fail? ==> s.view == v
    ensures v.status != PENDING ==> s.outcome == Fail(IllegalState(CONFIRM_NOT_PENDING))
    ensures v.status == PENDING && v.lines == [] ==> s.outcome == Fail(IllegalState(CONFIRM_EMPTY))
  {
    if v.status != PENDING then Refuse(v, IllegalState(CONFIRM_NOT_PENDING))
    else if v.lines == [] then Refuse(v, IllegalState(CONFIRM_EMPTY))
    else Step(Pass, v.(status := CONFIRMED))
  }

  /** startPreparing: only from CONFIRMED. */
  function StartPreparing(v: OrderView): (s: Step)
    ensures s.outcome.Pass? <==> v.status == CONFIRMED
    ensures s.outcome.Pass? ==> s.view == v.(status := PREPARING)
    ensures s.outcome.Fail? ==> s == Refuse(v, IllegalState(PREPARE_NOT_CONFIRMED))
  {
    if v.status != CONFIRMED then Refuse(v, IllegalState(PREPARE_NOT_CONFIRMED))
    else Step(Pass, v.(status := PREPARING))
  }

  /** markAsReady: only from PREPARING. */
  function MarkAsReady(v: OrderView): (s: Step)
    ensures s.outcome.Pass? <==> v.status == PREPARING
    ensures s.outcome.Pass? ==> s.view == v.(status := READY)
    ensures s.outcome.Fail? ==> s == Refuse(v, IllegalState(READY_NOT_PREPARING))
  {
    if v.status != PREPARING then Refuse(v, IllegalState(READY_NOT_PREPARING))
    else Step(Pass, v.(status := READY))
  }

  /** deliver: only from READY. */
  function Deliver(v: OrderView): (s: Step)
    ensures s.outcome.Pass? <==> v.status == READY
    ensures s.outcome.Pass? ==> s.view == v.(status := DELIVERED)
    ensures s.outcome.Fail? ==> s == Refuse(v, IllegalState(DELIVER_NOT_READY))
  {
    if v.status != READY then Refuse(v, IllegalState(DELIVER_NOT_READY))
    else Step(Pass, v.(status := DELIVERED))
  }

  /** cancel: exactly when the status can be cancelled, i.e. PENDING or CONFIRMED. */
  function Cancel(v: OrderView): (s: Step)
    ensures s.outcome.Pass? <==> v.status.CanBeCancelled()
    ensures s.outcome.Pass? ==> s.view == v.(status := CANCELLED)
    ensures s.outcome.Fail? ==> s == Refuse(v, IllegalState(CANNOT_CANCEL + v.status.Name()))
  {
    if !v.status.CanBeCancelled() then Refuse(v, IllegalState(CANNOT_CANCEL + v.status.Name()))
    else Step(Pass, v.(status := CANCELLED))
  }

  /** updateNotes: always succeeds, in every status, and changes only the notes. */
  function UpdateNotes(v: OrderView, notes: Option<string>): (s: Step)
    ensures s.outcome.Pass? && s.view == v.(notes := notes)
  {
    Step(Pass, v.(notes := notes))
  }

  /** The mutators of Order, as data, to reason about sequences of calls. */
  datatype Action =
    | AddItemAction(product: Option<int>, quantity: int, unitPrice: Option<int>)
    | RemoveItemAction(itemId: Option<int>)
    | UpdateItemQuantityAction(itemId: Option<int>, newQuantity: int)
    | ConfirmAction
    | StartPreparingAction
    | MarkAsReadyAction
    | DeliverAction
    | CancelAction
    | UpdateNotesAction(notes: Option<string>)

  /** One call; the status either stays or makes one of the lifecycle's moves. */
  function Apply(v: OrderView, a: Action): (s: Step)
    ensures s.outcome.Fail? ==> s.view == v
    ensures s.view.status == v.status || Moves(v.status, s.view.status)
    ensures s.view.customerId == v.customerId
  {
    match a
    case AddItemAction(p, q, u) => AddItem(v, p, q, u)
    case RemoveItemAction(id) => RemoveItem(v, id)
    case UpdateItemQuantityAction(id, q) => UpdateItemQuantity(v, id, q)
    case ConfirmAction => Confirm(v)
    case StartPreparingAction => StartPreparing(v)
    case MarkAsReadyAction => MarkAsReady(v)
    case DeliverAction => Deliver(v)
    case CancelAction => Cancel(v)
    case UpdateNotesAction(n) => UpdateNotes(v, n)
  }

  /** A sequence of calls, each applied to the state the previous one left. */
  function Run(v: OrderView, actions: seq<Action>): OrderView
    decreases |actions|
  {
    if actions == [] then v else Run(Apply(v, actions[0]).view, actions[1..])
  }

  // ---- sums ----

  lemma SumTotalsAppend(lines: seq<LineView>, l: LineView)
    ensures SumTotals(lines + [l]) == SumTotals(lines) + l.totalPrice
  {
    assert (lines + [l])[..|lines|] == lines;
  }

  lemma SumTotalsPrefix(lines: seq<LineView>, i: int)
    requires 0 <= i < |lines|
    ensures SumTotals(lines[..i + 1]) == SumTotals(lines[..i]) + lines[i].totalPrice
  {
    assert lines[..i + 1][..i] == lines[..i];
  }

  lemma {:induction false} SumTotalsNonNegative(lines: seq<LineView>)
    requires forall i :: 0 <= i < |lines| ==> LineValid(lines[i])
    ensures SumTotals(lines) >= 0
    decreases |lines|
  {
    if lines != [] {
      var last := lines[|lines| - 1];
      assert LineValid(last);
      assert last.totalPrice >= 0 by {
        assert last.unitPrice >= 0 && last.quantity > 0;
      }
      SumTotalsNonNegative(lines[..|lines| - 1]);
    }
  }

  /** Every line holds at least one unit, so there are at least as many units as lines. */
  lemma {:induction false} SumQuantitiesAtLeastLines(lines: seq<LineView>)
    ensures (forall i :: 0 <= i < |lines| ==> lines[i].quantity > 0) ==> SumQuantities(lines) >= |lines|
    decreases |lines|
  {
    if lines != [] {
      SumQuantitiesAtLeastLines(lines[..|lines| - 1]);
    }
  }

  // ---- helpers about the line lists ----

  /** Exactly the lines with a different id survive the removal. */
  lemma {:induction false} WithoutMembers(lines: seq<LineView>, itemId: Option<int>)
    ensures forall l :: l in Without(lines, itemId) <==> l in lines && l.id != itemId
    decreases |lines|
  {
    if lines != [] {
      var init := lines[..|lines| - 1];
      WithoutMembers(init, itemId);
      assert lines == init + [lines[|lines| - 1]];
    }
  }

  lemma WithoutSnoc(lines: seq<LineView>, l: LineView, itemId: Option<int>)
    ensures Without(lines + [l], itemId) == Without(lines, itemId) + (if l.id != itemId then [l] else [])
  {
    assert (lines + [l])[..|lines|] == lines;
  }

  /** Without over a growing prefix: the next line is kept exactly when its id differs. */
  lemma WithoutStep(lines: seq<LineView>, i: nat, itemId: Option<int>)
    requires i < |lines|
    ensures Without(lines[..i + 1], itemId) == Without(lines[..i], itemId) + (if lines[i].id != itemId then [lines[i]] else [])
  {
    assert lines[..i + 1] == lines[..i] + [lines[i]];
    WithoutSnoc(lines[..i], lines[i], itemId);
  }

  lemma WithoutNothing(lines: seq<LineView>)
    requires AllSaved(lines)
    ensures Without(lines, None) == lines
    decreases |lines|
  {
    if lines != [] {
      WithoutNothing(lines[..|lines| - 1]);
    }
  }

  lemma {:induction false} WithoutKeepsDistinct(lines: seq<LineView>, itemId: Option<int>)
    requires DistinctProducts(lines)
    ensures DistinctProducts(Without(lines, itemId))
    decreases |lines|
  {
    if lines != [] {
      var init := lines[..|lines| - 1];
      var last := lines[|lines| - 1];
      assert DistinctProducts(init);
      WithoutKeepsDistinct(init, itemId);
      var w := Without(init, itemId);
      WithoutMembers(init, itemId);
      forall l | l in w
        ensures l.productId != last.productId
      {
        assert l in init;
        var j :| 0 <= j < |init| && init[j] == l;
        assert lines[j] == l;
      }
    }
  }

  lemma UpdatedLinesStayDistinct(lines: seq<LineView>, k: int, l: LineView)
    requires DistinctProducts(lines) && 0 <= k < |lines| && l.productId == lines[k].productId
    ensures DistinctProducts(lines[k := l])
  {
  }

  lemma AppendedLineStaysDistinct(lines: seq<LineView>, l: LineView)
    requires DistinctProducts(lines)
    requires forall j :: 0 <= j < |lines| ==> lines[j].productId != l.productId
    ensures DistinctProducts(lines + [l])
  {
  }

  // ---- the aggregate invariant is preserved by every mutator ----

  /** Setting one line's quantity to a positive value keeps the order well formed. */
  lemma SetQuantityPreservesWellFormed(v: OrderView, k: int, q: int)
    requires WellFormed(v) && 0 <= k < |v.lines| && q > 0
    ensures WellFormed(Accept(v, v.lines[k := WithQuantity(v.lines[k], q)]).view)
  {
    UpdatedLinesStayDistinct(v.lines, k, WithQuantity(v.lines[k], q));
  }

  /** Appending a valid line for a product not yet present keeps the order well formed. */
  lemma AppendPreservesWellFormed(v: OrderView, l: LineView)
    requires WellFormed(v) && LineValid(l)
    requires forall j :: 0 <= j < |v.lines| ==> v.lines[j].productId != l.productId
    ensures WellFormed(Accept(v, v.lines + [l]).view)
  {
    AppendedLineStaysDistinct(v.lines, l);
  }

  lemma AddItemPreservesWellFormed(v: OrderView, product: Option<int>, quantity: int, unitPrice: Option<int>)
    requires WellFormed(v)
    ensures WellFormed(AddItem(v, product, quantity, unitPrice).view)
  {
    var s := AddItem(v, product, quantity, unitPrice);
    if s.outcome.Pass? {
      var k := FindProduct(v.lines, product.value);
      if k < |v.lines| {
        SetQuantityPreservesWellFormed(v, k, v.lines[k].quantity + quantity);
      } else {
        AppendPreservesWellFormed(v, NewLine(product.value, quantity, unitPrice.value));
      }
    }
  }

  lemma RemoveItemPreservesWellFormed(v: OrderView, itemId: Option<int>)
    requires WellFormed(v)
    ensures WellFormed(RemoveItem(v, itemId).view)
  {
    var s := RemoveItem(v, itemId);
    if s.outcome.Pass? {
      WithoutKeepsDistinct(v.lines, itemId);
      WithoutMembers(v.lines, itemId);
      var w := Without(v.lines, itemId);
      forall i | 0 <= i < |w|
        ensures LineValid(w[i])
      {
        assert w[i] in v.lines;
      }
    }
  }

  lemma UpdateItemQuantityPreservesWellFormed(v: OrderView, itemId: Option<int>, newQuantity: int)
    requires WellFormed(v)
    ensures WellFormed(UpdateItemQuantity(v, itemId, newQuantity).view)
  {
    var s := UpdateItemQuantity(v, itemId, newQuantity);
    if s.outcome.Pass? {
      SetQuantityPreservesWellFormed(v, FindItem(v.lines, itemId), newQuantity);
    }
  }

  lemma ApplyPreservesWellFormed(v: OrderView, a: Action)
    requires WellFormed(v)
    ensures WellFormed(Apply(v, a).view)
  {
    match a
    case AddItemAction(p, q, u) => AddItemPreservesWellFormed(v, p, q, u);
    case RemoveItemAction(id) => RemoveItemPreservesWellFormed(v, id);
    case UpdateItemQuantityAction(id, q) => UpdateItemQuantityPreservesWellFormed(v, id, q);
    case _ =>
  }

  /** Any sequence of calls keeps the invariant. */
  lemma {:induction false} RunPreservesWellFormed(v: OrderView, actions: seq<Action>)
    requires WellFormed(v)
    ensures WellFormed(Run(v, actions))
    decreases |actions|
  {
    if actions != [] {
      ApplyPreservesWellFormed(v, actions[0]);
      RunPreservesWellFormed(Apply(v, actions[0]).view, actions[1..]);
    }
  }

  /** Status never goes back: the lifecycle rank only grows along any sequence of calls. */
  lemma {:induction false} RunNeverGoesBack(v: OrderView, actions: seq<Action>)
    ensures Stage(Run(v, actions).status) >= Stage(v.status)
    ensures v.status.IsActive() == false ==> Run(v, actions).status == v.status
    decreases |actions|
  {
    if actions != [] {
      var w := Apply(v, actions[0]).view;
      if w.status != v.status {
        MovesGoForward(v.status, w.status);
      }
      RunNeverGoesBack(w, actions[1..]);
    }
  }

  /** DELIVERED and CANCELLED orders are frozen: only their notes can still change. */
  lemma {:induction false} TerminalOrdersAreFrozen(v: OrderView, actions: seq<Action>)
    requires !v.status.IsActive()
    ensures Run(v, actions).status == v.status
    ensures Run(v, actions).lines == v.lines
    ensures Run(v, actions).totalAmount == v.totalAmount
    ensures Run(v, actions).customerId == v.customerId
    decreases |actions|
  {
    if actions != [] {
      TerminalOrdersAreFrozen(Apply(v, actions[0]).view, actions[1..]);
    }
  }

  // ---- each path of the item rules, as one equation ----

  lemma AddItemMergePath(v: OrderView, productId: int, quantity: int, unitPrice: Option<int>, k: int)
    requires v.status == PENDING && 0 <= k < |v.lines| && k == FindProduct(v.lines, productId)
    ensures v.lines[k].quantity + quantity <= 0 ==>
              AddItem(v, Some(productId), quantity, unitPrice) == Refuse(v, IllegalArgument(QUANTITY_NOT_POSITIVE))
    ensures v.lines[k].quantity + quantity > 0 ==>
              AddItem(v, Some(productId), quantity, unitPrice)
              == Accept(v, v.lines[k := WithQuantity(v.lines[k], v.lines[k].quantity + quantity)])
  {
  }

  lemma AddItemAppendPath(v: OrderView, product: Option<int>, quantity: int, unitPrice: Option<int>)
    requires v.status == PENDING
    requires product.None? ==> v.lines == []
    requires product.Some? ==> FindProduct(v.lines, product.value) == |v.lines|
    ensures LineCheck(product, quantity, unitPrice).Fail? ==>
              AddItem(v, product, quantity, unitPrice) == Refuse(v, LineCheck(product, quantity, unitPrice).error)
    ensures LineCheck(product, quantity, unitPrice).Pass? ==>
              AddItem(v, product, quantity, unitPrice)
              == Accept(v, v.lines + [NewLine(product.value, quantity, unitPrice.value)])
  {
  }

  lemma RemoveItemPath(v: OrderView, itemId: Option<int>)
    requires v.status == PENDING && AllSaved(v.lines)
    ensures RemoveItem(v, itemId) == Accept(v, Without(v.lines, itemId))
  {
    if itemId.None? {
      WithoutNothing(v.lines);
    }
  }

  lemma UpdateItemQuantityPath(v: OrderView, itemId: Option<int>, newQuantity: int, k: int)
    requires v.status == PENDING && 0 <= k < |v.lines| && k == FindItem(v.lines, itemId) && v.lines[k].id.Some?
    ensures newQuantity <= 0 ==>
              UpdateItemQuantity(v, itemId, newQuantity) == Refuse(v, IllegalArgument(QUANTITY_NOT_POSITIVE))
    ensures newQuantity > 0 ==>
              UpdateItemQuantity(v, itemId, newQuantity) == Accept(v, v.lines[k := WithQuantity(v.lines[k], newQuantity)])
  {
  }

  // ---- the item rules in detail ----

  /** Adding a product that already has a line changes only that line: quantity up, original unit price kept. */
  lemma AddingPresentProductMerges(v: OrderView, k: int, quantity: int, unitPrice: Option<int>)
    requires WellFormed(v) && v.status == PENDING
    requires 0 <= k < |v.lines| && v.lines[k].quantity + quantity > 0
    ensures var s := AddItem(v, Some(v.lines[k].productId), quantity, unitPrice);
            s.outcome == Pass
            && |s.view.lines| == |v.lines|
            && s.view.lines[k].quantity == v.lines[k].quantity + quantity
            && s.view.lines[k].unitPrice == v.lines[k].unitPrice
            && s.view.lines[k].id == v.lines[k].id
            && (forall j :: 0 <= j < |v.lines| && j != k ==> s.view.lines[j] == v.lines[j])
  {
    var p := v.lines[k].productId;
    assert FindProduct(v.lines, p) == k;
  }

  /** Adding a product with no line appends one fresh line, priced as given. */
  lemma AddingNewProductAppends(v: OrderView, product: int, quantity: int, unitPrice: int)
    requires v.status == PENDING && quantity > 0 && unitPrice >= 0
    requires forall j :: 0 <= j < |v.lines| ==> v.lines[j].productId != product
    ensures AddItem(v, Some(product), quantity, Some(unitPrice))
            == Accept(v, v.lines + [LineView(None, product, quantity, unitPrice, unitPrice * quantity)])
  {
    assert FindProduct(v.lines, product) == |v.lines|;
  }

  /** updateItemQuantity on a saved, present line sets exactly that line's quantity. */
  lemma UpdatingPresentItem(v: OrderView, k: int, newQuantity: int)
    requires v.status == PENDING && AllSaved(v.lines) && newQuantity > 0
    requires 0 <= k < |v.lines|
    requires forall j :: 0 <= j < |v.lines| && j != k ==> v.lines[j].id != v.lines[k].id
    ensures UpdateItemQuantity(v, v.lines[k].id, newQuantity)
            == Accept(v, v.lines[k := WithQuantity(v.lines[k], newQuantity)])
  {
    assert FindItem(v.lines, v.lines[k].id) == k;
  }
}
