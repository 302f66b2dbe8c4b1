/** Option values and the JavaScript truthiness of an optional string.

    Attributes read from the DOM (`dataset.x`), optional JSON fields and
    optional-chaining results (`a?.b`) are either absent (`undefined`) or a
    string. JavaScript's `a || b` skips both the absent value and the empty
    string, which is what `Truthy` and `OrElse` capture. */
module Wrappers {

  datatype Option<+T> = None | Some(value: T) {

    /** The encapsulated value, or `default` when absent. */
    function GetOr(default: T): T {
      match this
      case Some(v) => v
      case None => default
    }
  }

  /** An optional string is truthy in JavaScript when present and non-empty. */
  predicate Truthy(o: Option<string>) {
    o.Some? && o.value != ""
  }

  /** JavaScript `o || fallback` where `o` is an optional string. */
  function OrElse(o: Option<string>, fallback: string): (r: string)
    ensures Truthy(o) ==> r == o.value
    ensures !Truthy(o) ==> r == fallback
    ensures r == "" ==> fallback == ""
  {
    if Truthy(o) then o.value else fallback
  }
}
