/** Small shared vocabulary: an optional value (a C pointer that may be NULL,
    a file handle that may be invalid) and the minimum of two integers. */
module Common {

  datatype Option<+T> = None | Some(value: T)

  function Min(a: int, b: int): int
  {
    if a <= b then a else b
  }
}
