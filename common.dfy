/** Values shared by the three controllers: optional request fields and the
    outcome of an operation, with the kinds of error the controllers report. */
module Common {

  /** A request field that is either supplied or omitted. */
  datatype Option<+T> = None | Some(value: T)
  {
    function GetOr(default: T): T
    {
      match this
      case Some(v) => v
      case None => default
    }
  }

  /** The kinds of failure the controllers answer with. The HTTP status each
      is sent with is noted beside it; the message text is not modelled. */
  datatype Error =
    | EmptyCart          // 400, checkout of a missing or empty cart
    | ProductNotFound    // 400, a cart line names a product that does not exist
    | InsufficientStock  // 400, a cart line asks for more than the visible stock
    | NotFound           // 404, no such product, or no such order of the caller
    | InvalidState       // 400, the order can no longer be cancelled
    | MissingFields      // 400, a required request field is absent
    | EmailTaken         // 400, registration with an email already in use
    | InvalidCredentials // 401, unknown email or wrong password (one class for both)
    | HasOrderHistory    // 400, the product is referenced by order lines

  /** The outcome of an operation that answers with a value. */
  datatype Result<+T> = Ok(value: T) | Err(error: Error)

  /** The outcome of an operation that answers with no value. */
  datatype Outcome = Done | Fail(error: Error)
}
