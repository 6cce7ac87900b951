/** Values shared by every part of the model: identifiers, optional
    values (JavaScript `undefined` / `NaN`), the outcome of a request
    handler, and the few JavaScript operators the handlers rely on. */
module Common {

  /** Document identifiers (MongoDB ObjectIds) and user identifiers. */
  type Id = nat
  type UserId = nat

  datatype Option<T> = None | Some(value: T)

  /** What a route handler answers: 200/201 with a payload, or one of the
      error statuses it can send (400, 404, 403, 500). */
  datatype Response<T> = Ok(value: T) | Invalid | NotFound | Forbidden | ServerError
  {
    function Code(): (c: nat)
      ensures c == 200 <==> Ok?
      ensures c == 200 || 400 <= c <= 500
    {
      match this
      case Ok(_) => 200
      case Invalid => 400
      case NotFound => 404
      case Forbidden => 403
      case ServerError => 500
    }
  }

  /** An optional request-body string field: `None` is `undefined`. */
  type Field = Option<string>

  /** `a || b` for a string field and a string: an undefined or empty `a`
      is falsy. */
  function Or(a: Field, b: string): (r: string)
    ensures r == b || (a.Some? && r == a.value && a.value != "")
    ensures (a.Some? && a.value != "") ==> r == a.value
  {
    if a.Some? && a.value != "" then a.value else b
  }

  /** `a !== undefined ? a : b`: an empty string is kept. */
  function IfDefined(a: Field, b: string): (r: string)
    ensures a.Some? ==> r == a.value
    ensures a.None? ==> r == b
  {
    match a
    case Some(v) => v
    case None => b
  }

  /** express-validator `body(f).notEmpty()`: the field is present and is
      not the empty string (whitespace counts as content). */
  predicate NotEmpty(a: Field) {
    a.Some? && a.value != ""
  }

  /** express-validator `body(f).optional().notEmpty()`. */
  predicate OptionalNotEmpty(a: Field) {
    a.None? || a.value != ""
  }
}
