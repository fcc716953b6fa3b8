/** Optional values: a field or argument that may be absent (`undefined` or `null`). */
module Wrappers {
  datatype Option<+T> = None | Some(value: T) {
    /** The value, or `default` when absent. */
    function GetOr(default: T): T {
      if Some? then value else default
    }
  }
}

/** Scalar types shared by the models. */
module Basics {
  /** A document identifier (`_id`), handed out by the collection. */
  type Id = nat

  /** An abstract clock reading in seconds, supplied by the caller. */
  type Time = int

  /** A JavaScript number as stored in a document; NaN and infinities are not distinguished. */
  type Number = real
}
