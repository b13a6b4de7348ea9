/** The JavaScript numeric coercions the handler applies to upstream and
    query fields. */
module Coercion {

  /** The value of `Number(x)` for a field: a finite number, or NaN. A missing
      field is NaN too, since `Number(undefined)` is NaN. */
  datatype JsNumber = Finite(value: real) | NaN

  /** `Number(x) || 0`: NaN and 0 are the falsy numbers, and both give 0. */
  function OrZero(n: JsNumber): real
  {
    if n.Finite? then n.value else 0.0
  }

  /** Whether a number is truthy, as in `x || fallback`. */
  predicate Truthy(n: JsNumber)
  {
    n.Finite? && n.value != 0.0
  }
}
