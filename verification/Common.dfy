/** Small shared vocabulary: optional values, instants, and the smaller and larger of two integers. */
module Common {

  datatype Option<+T> = None | Some(value: T)

  /** Outcome of a call that the program may leave by raising. */
  datatype Result<+T> = Success(value: T) | Raised

  /** A UTC instant or a duration, in microseconds. */
  type Instant = int

  function Min(a: int, b: int): int { if a <= b then a else b }

  function Max(a: int, b: int): int { if a >= b then a else b }
}
