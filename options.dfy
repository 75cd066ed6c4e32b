/** A proper sum type for "may or may not produce a value". The (found, value)
    pair of an optional computation is read through it, so that the laws about
    the combinators can be stated without mentioning the placeholder that an
    absent result carries. */
module Options {

  datatype Option<+T> = None | Some(value: T) {

    /** Applies `f` to a present value; an absent value stays absent. */
    function Map<R>(f: T -> R): Option<R> {
      match this
      case Some(v) => Some(f(v))
      case None => None
    }

    /** Eliminates the option: `whenSome` of a present value, otherwise `whenNone`. */
    function Fold<R>(whenSome: T -> R, whenNone: R): R {
      match this
      case Some(v) => whenSome(v)
      case None => whenNone
    }

    /** The present value, or `default` when absent. */
    function GetOr(default: T): T {
      match this
      case Some(v) => v
      case None => default
    }
  }
}
