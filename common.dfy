/** Value wrappers shared by the whole model: an optional value for the
    source's `null`/`undefined`, a result for a call that either returns or
    throws, and JavaScript's truthiness of an optional string. */
module Common {

  /** `None` stands for `null` or `undefined`. */
  datatype Option<+T> = None | Some(value: T)

  /** `Err` carries the `message` of the thrown `Error`. */
  datatype Result<+T, +E> = Ok(value: T) | Err(error: E)

  /** A string value is truthy in JavaScript exactly when it is present and non-empty. */
  predicate Truthy(s: Option<string>) {
    s.Some? && s.value != ""
  }

  /** JavaScript's `a || b` on two optional strings. */
  function OrElse(a: Option<string>, b: Option<string>): (r: Option<string>)
    ensures Truthy(a) ==> r == a
    ensures !Truthy(a) ==> r == b
    ensures Truthy(r) <==> Truthy(a) || Truthy(b)
  {
    if Truthy(a) then a else b
  }

  /** JavaScript's `message || fallback` on a plain string. */
  function MessageOr(message: string, fallback: string): (r: string)
    ensures message != "" ==> r == message
    ensures message == "" ==> r == fallback
    ensures fallback != "" ==> r != ""
  {
    if message != "" then message else fallback
  }
}
