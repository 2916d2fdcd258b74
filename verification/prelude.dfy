/** Small shared vocabulary: optional values and the JavaScript/Python notion
    of a "truthy" optional string (present and non-empty). */
module Prelude {

  /** An optional value: a dictionary key that is missing, or an optional
      column or field that holds nothing. */
  datatype Option<+T> = None | Some(value: T) {

    /** `d.get(key, default)`: the value when present, `default` otherwise. */
    function GetOr(default: T): T {
      if Some? then value else default
    }
  }

  /** Both `a.assignee ? … : ""` in the client and `if item.get("assignee")`
      in the server treat a string as set exactly when it is present and
      non-empty. */
  predicate Truthy(s: Option<string>) {
    s.Some? && s.value != ""
  }

  /** `x || fallback` on an optional string, as JavaScript and Python both
      evaluate it. */
  function OrElse(s: Option<string>, fallback: string): (r: string)
    ensures Truthy(s) ==> r == s.value
    ensures !Truthy(s) ==> r == fallback
  {
    if Truthy(s) then s.value else fallback
  }
}
