/** Small shared vocabulary: an optional value, integer helpers and the
    width of the C++ `unsigned` type the widget stores its indices in. */
module Basics {

  datatype Option<+T> = None | Some(value: T)

  /** Largest value of a 32-bit `unsigned`. */
  const U32_MAX: nat := 0xFFFF_FFFF

  function Min(a: int, b: int): int {
    if a <= b then a else b
  }

  function Max(a: int, b: int): int {
    if a <= b then b else a
  }
}
