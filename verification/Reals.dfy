/** The number operations of the runtime on exact reals. */
module Reals {
  function Max(a: real, b: real): real { if a < b then b else a }

  function Min(a: real, b: real): real { if a < b then a else b }

  function Ceil(x: real): int { -((-x).Floor) }

  /** Toward zero, as Redis turns a Lua number into an integer reply. */
  function Truncate(x: real): int { if x < 0.0 then Ceil(x) else x.Floor }
}
