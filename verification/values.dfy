/** JavaScript values as the pages see them: a possibly-missing field,
    the truthiness test the pages use on it, and how an awaited call settles. */
module Values {

  /** A field that may be `undefined`/`null` (None) or hold a value. */
  datatype Option<+T> = None | Some(value: T)

  /** A string field is truthy in JavaScript exactly when it is present and non-empty. */
  predicate Truthy(v: Option<string>) {
    v.Some? && v.value != ""
  }

  /** A number field is truthy when it is present and not zero. */
  predicate TruthyNum(v: Option<int>) {
    v.Some? && v.value != 0
  }

  /** The field as a guard `if (v)` lets it through: the value when truthy, nothing otherwise. */
  function WhenTruthy(v: Option<string>): (r: Option<string>)
    ensures r.Some? <==> Truthy(v)
    ensures r.Some? ==> r == v && r.value != ""
  {
    if Truthy(v) then v else None
  }

  /** How an awaited promise settles: with a value, or by rejecting with an error message. */
  datatype Settled<+T> = Resolved(value: T) | Rejected(message: string)
}
