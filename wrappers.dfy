/** Optional values: Python's `None` next to a real value. */
module Wrappers {

  datatype Option<+T> = None | Some(value: T) {
    function GetOr(default: T): T {
      match this
      case Some(v) => v
      case None => default
    }
  }

  /** Python truthiness of an optional integer request field: absent, null and 0 are all false. */
  predicate Truthy(x: Option<int>) {
    x.Some? && x.value != 0
  }
}
