/** A nullable Java reference or an absent JavaScript value, modelled as an explicit option. */
module Wrappers {

  datatype Option<+T> = None | Some(value: T) {

    /** The wrapped value, or `default` when absent. */
    function GetOr(default: T): T {
      match this
      case Some(v) => v
      case None => default
    }
  }

  /** A service call paired with the repository state it leaves behind. */
  datatype Handled<+R, +S> = Handled(response: R, state: S)
}
