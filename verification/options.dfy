/** An optional value: the model's rendering of a field or a lookup result that
    may be `undefined` in the game's TypeScript code. */
module Options {

  datatype Option<T> = None | Some(value: T) {

    /** The value, or `fallback` when absent (TypeScript's `x || fallback` on an
        optional array, which is truthy whenever it is present). */
    function GetOr(fallback: T): (r: T)
      ensures Some? ==> r == value
      ensures None? ==> r == fallback
    {
      match this
      case Some(v) => v
      case None => fallback
    }
  }
}
