/** The optional value used where the source returns `undefined` or leaves a field unset. */
module Options {
  datatype Option<+T> = None | Some(value: T)

  function Max(x: int, y: int): int { if x < y then y else x }

  function Min(x: int, y: int): int { if x < y then x else y }
}
