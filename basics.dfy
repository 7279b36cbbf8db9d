/** Small values and arithmetic facts used throughout the model. */
module Basics {

  datatype Option<+T> = None | Some(value: T)

  /** Mathf.Min: the first argument when it is smaller, the second otherwise. */
  function Min(a: real, b: real): (r: real)
    ensures r <= a && r <= b
    ensures r == a || r == b
  {
    if a < b then a else b
  }
}
