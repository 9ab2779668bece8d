/** Arithmetic the components share. */
module Numbers {

  function Max(a: int, b: int): int {
    if a < b then b else a
  }
}
