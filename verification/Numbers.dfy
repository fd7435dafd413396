/** Numbers that several components use. */
module Numbers {

  // A Go string is a sequence of bytes.
  newtype byte = x: int | 0 <= x < 256

  function Min(x: int, y: int): int {
    if x < y then x else y
  }

  function Max(x: int, y: int): int {
    if x < y then y else x
  }
}
