/** The two wrappers and the one integer width that several modules share. */
module Basics {

  datatype Option<+T> = None | Some(value: T)

  /** The outcome of an operation of the source that either returns or throws. */
  datatype Outcome<+T> = Returned(value: T) | Thrown

  const INT32_MIN: int := -0x8000_0000
  const INT32_LIMIT: int := 0x8000_0000

  type Int32 = x: int | INT32_MIN <= x < INT32_LIMIT

  /** The C++ conversion `int32_t(x)`: reduction modulo two to the thirty-second, into the signed range. */
  function ToInt32(x: int): (r: Int32)
    ensures (r - x) % 0x1_0000_0000 == 0
    ensures INT32_MIN <= x < INT32_LIMIT ==> r == x
  {
    var low := x % 0x1_0000_0000;
    if low < INT32_LIMIT then low else low - 0x1_0000_0000
  }
}
