/** The small vocabulary every module shares. */
module Basics {

  datatype Option<T> = None | Some(value: T)

  function Least(a: nat, b: nat): nat { if a <= b then a else b }

  function Greatest(a: int, b: int): int { if a < b then b else a }
}
