/** Shared vocabulary of the model: document identifiers, optional values,
    the errors a handler raises and the outcome of a handler. */
module Base {

  /** A document identifier. All collections draw their ids from one counter,
      so a larger id also means a later `createdAt`. */
  type Id = nat

  datatype Option<T> = None | Some(value: T)

  /** Why the store refused to save a document. */
  datatype Violation =
    | ValidationFailed   // a schema validator (`required`, `minlength`) failed
    | DuplicateKey       // a unique index (User.email) already holds the value

  /** The errors the controllers raise. Each one is raised before the
      handler writes anything. */
  datatype Error =
    | NotFound
    | Unauthorized
    | BadRequest
    | Invalid(violation: Violation)

  /** The HTTP status a handler sets before it throws. Validation failures
      carry no status of their own: the error middleware picks one, and that
      middleware is not part of this model. */
  function HttpStatus(e: Error): (code: Option<nat>)
    ensures code.Some? <==> !e.Invalid?
    ensures e == NotFound <==> code == Some(404)
    ensures e == Unauthorized <==> code == Some(401)
    ensures e == BadRequest <==> code == Some(400)
  {
    match e
    case NotFound => Some(404)
    case Unauthorized => Some(401)
    case BadRequest => Some(400)
    case Invalid(_) => None
  }

  /** The outcome of a handler: a value, or the error it threw. */
  datatype Result<T> = Ok(value: T) | Err(error: Error) {

    predicate IsFailure() {
      Err?
    }

    function PropagateFailure<U>(): Result<U>
      requires Err?
    {
      Err(error)
    }

    function Extract(): T
      requires Ok?
    {
      value
    }
  }

  /** JavaScript truthiness of an optional string request field: an absent
      field and the empty string are both falsy. */
  predicate Truthy(field: Option<string>) {
    field.Some? && field.value != ""
  }

  /** The source's `field || fallback`. */
  function OrElse(field: Option<string>, fallback: string): string {
    if Truthy(field) then field.value else fallback
  }
}
