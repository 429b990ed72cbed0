/** Optional values, the model's stand-in for PHP's `null` and `false` results. */
module Wrappers {

  /**
   * `Some(value)` when the PHP code has a value, `None` where it has `null`
   * (a missing SKU, a missing creation date, no customer).
   */
  datatype Option<+T> = None | Some(value: T) {

    /** The value when there is one, `fallback` where PHP falls back to a default such as `''`. */
    function GetOr(fallback: T): (v: T) {
      match this
      case Some(x) => x
      case None => fallback
    }
  }
}
