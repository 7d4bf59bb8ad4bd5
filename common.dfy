/** Shared vocabulary of the event backend: document ids, timestamps,
    optional request fields and the error outcomes the controller answers
    with. */
module Common {

  /** Document ids (Mongo ObjectIds), compared by equality only. */
  type Id = int

  /** Instants, as integer timestamps. */
  type Time = int

  datatype Option<+T> = None | Some(value: T)

  datatype Result<+T, +E> = Ok(value: T) | Err(error: E)

  /** Why a request was refused with status 400. */
  datatype BadRequestReason = MissingRequiredFields | StartInPast | EndNotAfterStart

  /** The client-facing failures of the event controller (the 500 branches
      for store failures are not modelled). */
  datatype Error = BadRequest(reason: BadRequestReason) | Forbidden | NotFound

  /** The HTTP status each failure is answered with. */
  function StatusCode(e: Error): (code: int)
    ensures code == 400 <==> e.BadRequest?
    ensures code == 403 <==> e.Forbidden?
    ensures code == 404 <==> e.NotFound?
  {
    match e
    case BadRequest(_) => 400
    case Forbidden => 403
    case NotFound => 404
  }

  /** JavaScript truthiness of an optional string field: absent, null and
      the empty string are falsy, every other string is truthy. */
  predicate Truthy(s: Option<string>)
  {
    s.Some? && s.value != ""
  }
}
