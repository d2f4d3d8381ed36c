/** Optional values, results and the exceptions the domain code throws. */
module Wrappers {

  /** A possibly-null reference or value. */
  datatype Option<+T> = None | Some(value: T)

  /** The exceptions raised by the modelled code, by kind. */
  datatype Error =
    | IllegalArgument(message: string)
    | IllegalState(message: string)
    | NotFound(entity: string, id: int)
    | NullPointer
    | IndexOutOfBounds
    | NumberFormat(input: string)
    | DateTimeParse(input: string)
    | ResponseStatus(status: int, reason: string)

  /** HTTP status codes used by ResponseStatus errors. */
  const BAD_REQUEST := 400
  const PRECONDITION_FAILED := 412

  /** The outcome of an operation that returns a value or throws. */
  datatype Result<+T> = Success(value: T) | Failure(error: Error)

  /** The outcome of an operation that returns nothing or throws. */
  datatype Outcome = Pass | Fail(error: Error)

  /** A non-empty set of ids has a member: the witness a `:|` choice over ids needs. */
  lemma HasMember(s: set<int>)
    requires s != {}
    ensures exists x :: x in s
  {
    if forall x :: x !in s {
      assert false;
    }
  }
}
