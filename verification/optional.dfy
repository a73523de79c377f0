/** An optional value: the model's rendering of JavaScript's `undefined` / `null`. */
module Optional {

  datatype Option<T> = None | Some(value: T)
  {
    /** The value, or `default` when absent (JavaScript's `x ?? default`). */
    function GetOr(default: T): T
    {
      if Some? then value else default
    }
  }
}
