/** The absent-or-present wrapper used for the message's nullable fields. */
module Wrappers {

  /** `None` stands for a Java `null` field, `Some(v)` for a field holding `v`. */
  datatype Option<+T> = None | Some(value: T) {

    /** The wrapped value, or `default` when absent. */
    function GetOr(default: T): T
    {
      match this
      case Some(v) => v
      case None => default
    }
  }
}
