/** Values shared by every part of the model. */
module Common {

  datatype Option<+T> = None | Some(value: T) {
    /** The value, or `default` when there is none (the source's `??`). */
    function GetOr(default: T): T {
      if Some? then value else default
    }

    /** This option, or `other` when this one is empty (the source's `??` on optional values). */
    function Or(other: Option<T>): Option<T> {
      if Some? then this else other
    }
  }

  datatype Result<+T, +E> = Ok(value: T) | Err(error: E)
}
