/** Optional values: the source's `None`, `null` and "absent" cases. */
module Wrappers {
  datatype Option<+T> = None | Some(value: T) {
    /** The contained value, or `default` when absent. */
    function GetOr(default: T): T {
      match this
      case Some(v) => v
      case None => default
    }
  }

  /** Truthiness of a stored token, in Python and in JavaScript alike: present and not the
      empty string. */
  predicate HasToken(token: Option<string>) {
    token.Some? && token.value != ""
  }
}
