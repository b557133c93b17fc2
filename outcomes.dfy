/**
 * Values shared by every module of the model: optional values, results, and the
 * failures the engine raises. The source throws a JavaScript `Error` for each
 * failure; here every operation returns which failure it raised instead.
 */
module Outcomes {

  datatype Option<+T> = None | Some(value: T)

  datatype Result<+T, +E> = Ok(value: T) | Err(error: E)

  /** One constructor per `throw` of the engine. */
  datatype Failure =
    | BadStateItemName(item: string)   // a user's initial item ends neither in "Secret" nor in "Key"
    | MissingStateItem(item: string)   // the user does not hold the item it signs with or gives
    | NotAKey(item: string)            // the user signs with an item that is not a key
    | NotConfirmed                     // sending from an output that has no confirmation time
    | AlreadySpent                     // sending from an output that is spent
    | Unfulfillable(remaining: seq<string>) // sending while some requirements are unmet
    | PathThroughUndefined             // `out` steps through a missing intermediate output (a TypeError)

  /** The outcome of an operation that returns nothing but may throw. */
  datatype Outcome = Pass | Fail(error: Failure)
}
