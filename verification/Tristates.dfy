/** The three-valued logic of expr.h: n, m and y with minimum, maximum and 2-x. */
module Tristates {

  datatype Tristate = No | Mod | Yes

  function Rank(t: Tristate): nat {
    match t
    case No => 0
    case Mod => 1
    case Yes => 2
  }

  predicate Le(a: Tristate, b: Tristate) {
    Rank(a) <= Rank(b)
  }

  /** EXPR_AND */
  function Min(a: Tristate, b: Tristate): Tristate {
    if Rank(a) < Rank(b) then a else b
  }

  /** EXPR_OR */
  function Max(a: Tristate, b: Tristate): Tristate {
    if Rank(a) > Rank(b) then a else b
  }

  /** EXPR_NOT */
  function Negate(a: Tristate): Tristate {
    match a
    case No => Yes
    case Mod => Mod
    case Yes => No
  }

  function FromBool(b: bool): Tristate {
    if b then Yes else No
  }
}
