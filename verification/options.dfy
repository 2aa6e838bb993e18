/** A value that may be absent: the `null` a lookup returns in the modelled views. */
module Options {

  datatype Option<+T> = None | Some(value: T)

  /** The first present value of `a` and `b`, if any. */
  function Or<T>(a: Option<T>, b: Option<T>): Option<T>
  {
    if a.Some? then a else b
  }
}
