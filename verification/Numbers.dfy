/** Small arithmetic shared by the modules. */
module Numbers {
  const NANOS_PER_MILLI: int := 1_000_000

  function Min(x: int, y: int): int {
    if x < y then x else y
  }

  function Max(x: int, y: int): int {
    if x < y then y else x
  }
}
