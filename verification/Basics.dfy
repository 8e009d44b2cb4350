/** Notions the models share. */
module Basics {

  datatype Option<+T> = None | Some(value: T)

  type Path = string

  function Min(a: int, b: int): int { if a <= b then a else b }

  function Max(a: int, b: int): int { if a >= b then a else b }

  function Abs(z: int): (r: int)
    ensures r >= 0
  {
    if z < 0 then -z else z
  }
}
