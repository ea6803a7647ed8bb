/** An optional value: the model's stand-in for JavaScript's `undefined`
    (an unset field, an empty hold slot, a hole in a freshly allocated array). */
module Optional {

  datatype Option<+T> = None | Some(value: T) {

    /** The wrapped value, or `default` when there is none (JavaScript's `??`). */
    function GetOr(default: T): T {
      match this
      case Some(v) => v
      case None => default
    }
  }
}
