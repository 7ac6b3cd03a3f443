/** The optional value used wherever the system answers "nothing": no lead
    block, a failed decode, a missing dictionary key, a failed upstream call. */
module Wrappers {

  datatype Option<+T> = None | Some(value: T) {

    /** The wrapped value, or `default` when there is none. */
    function GetOr(default: T): T {
      match this
      case Some(v) => v
      case None => default
    }
  }
}
