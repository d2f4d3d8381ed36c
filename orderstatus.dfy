/** The six order states and the predicates that gate the order lifecycle. */
module OrderStatuses {

  datatype OrderStatus = PENDING | CONFIRMED | PREPARING | READY | DELIVERED | CANCELLED {

    /** The constant's name, as Java's Enum.toString renders it. */
    function Name(): string {
      match this
      case PENDING => "PENDING"
      case CONFIRMED => "CONFIRMED"
      case PREPARING => "PREPARING"
      case READY => "READY"
      case DELIVERED => "DELIVERED"
      case CANCELLED => "CANCELLED"
    }

    function Description(): string {
      match this
      case PENDING => "Order is pending confirmation"
      case CONFIRMED => "Order has been confirmed"
      case PREPARING => "Order is being prepared"
      case READY => "Order is ready for pickup/delivery"
      case DELIVERED => "Order has been delivered"
      case CANCELLED => "Order has been cancelled"
    }

    predicate IsPending() { this == PENDING }
    predicate IsConfirmed() { this == CONFIRMED }
    predicate IsPreparing() { this == PREPARING }
    predicate IsReady() { this == READY }
    predicate IsDelivered() { this == DELIVERED }
    predicate IsCancelled() { this == CANCELLED }

    /** Neither cancelled nor delivered: exactly the four in-progress states. */
    function IsActive(): (r: bool)
      ensures r <==> this in {PENDING, CONFIRMED, PREPARING, READY}
    {
      this != CANCELLED && this != DELIVERED
    }

    /** Items may be changed only while pending. */
    function CanBeModified(): (r: bool)
      ensures r <==> this == PENDING
      ensures r ==> CanBeCancelled()
    {
      this == PENDING
    }

    /** Cancellation is allowed only before preparation starts. */
    function CanBeCancelled(): (r: bool)
      ensures r <==> this in {PENDING, CONFIRMED}
      ensures r ==> IsActive()
    {
      this == PENDING || this == CONFIRMED
    }
  }

  const ALL_STATUSES: seq<OrderStatus> := [PENDING, CONFIRMED, PREPARING, READY, DELIVERED, CANCELLED]

  /** The constant names are pairwise distinct, so the name identifies the status. */
  lemma NameIsInjective(a: OrderStatus, b: OrderStatus)
    ensures a.Name() == b.Name() ==> a == b
  {
  }

  /** Each isX predicate holds for exactly one constant: the list of statuses satisfying it is that constant alone. */
  lemma EachPredicateSelectsOneConstant(s: OrderStatus)
    ensures s in ALL_STATUSES
    ensures s.IsPending() <==> s == PENDING
    ensures s.IsConfirmed() <==> s == CONFIRMED
    ensures s.IsPreparing() <==> s == PREPARING
    ensures s.IsReady() <==> s == READY
    ensures s.IsDelivered() <==> s == DELIVERED
    ensures s.IsCancelled() <==> s == CANCELLED
  {
  }

  /** The lifecycle rank: PENDING, CONFIRMED, PREPARING, READY, then the two terminal states. */
  function Stage(s: OrderStatus): (n: nat)
    ensures n <= 4
    ensures n == 4 <==> !s.IsActive()
  {
    match s
    case PENDING => 0
    case CONFIRMED => 1
    case PREPARING => 2
    case READY => 3
    case DELIVERED => 4
    case CANCELLED => 4
  }

  /** The status moves the order methods allow: one step along the chain, or a cancellation. */
  predicate Moves(from: OrderStatus, to: OrderStatus) {
    (from == PENDING && to == CONFIRMED)
    || (from == CONFIRMED && to == PREPARING)
    || (from == PREPARING && to == READY)
    || (from == READY && to == DELIVERED)
    || (from.CanBeCancelled() && to == CANCELLED)
  }

  /** Every move goes strictly forward in the lifecycle and never leaves a terminal state. */
  lemma MovesGoForward(from: OrderStatus, to: OrderStatus)
    requires Moves(from, to)
    ensures Stage(from) < Stage(to)
    ensures from.IsActive()
  {
  }
}
