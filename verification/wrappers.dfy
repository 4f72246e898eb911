/**
 * Absent values. The page script meets them as a missing `bytes` field of a
 * photo's meta entry and as a downscale that produced no image; the worker's
 * `addAll` produces no new generation when the batch is refused.
 */
module Wrappers {

  /** A value that may be absent: JavaScript's `undefined` or a rejected result. */
  datatype Option<+T> = None | Some(value: T) {

    /** `value || default`: the value when present, `default` when absent. */
    function GetOr(default: T): T {
      match this
      case Some(v) => v
      case None => default
    }
  }
}
