/** Small vocabulary shared by every component of the model. */
module Prelude {

  /** A nullable column or an optional argument. */
  datatype Option<+T> = None | Some(value: T) {
    function GetOr(default: T): T {
      match this
      case Some(v) => v
      case None => default
    }
  }

  /** The value of `x` unless it is absent, then `y`: the `??` operator on nullable values. */
  function OrElse<T>(x: Option<T>, y: Option<T>): Option<T> {
    if x.Some? then x else y
  }

  /** Milliseconds since the epoch. */
  type Time = int
}
