/** Small shared vocabulary: an optional value. */
module Basics {

  /** A value that may be absent (JavaScript's `null`, `undefined` or `NaN` where the model needs one). */
  datatype Option<+T> = None | Some(value: T)

  function Abs(x: int): (r: nat)
    ensures r == x || r == -x
  {
    if x < 0 then -x else x
  }
}
