/** Extrema, rounding, and a few facts about products that the solver does not find by itself. */
module Arithmetic {

  function Max(a: int, b: int): int { if a >= b then a else b }

  function Min(a: int, b: int): int { if a <= b then a else b }

  /** To the nearest whole number, halves upwards. */
  function Round(x: real): int { (x + 0.5).Floor }

  lemma {:induction false} TimesMonotone(a: int, b: int, c: int)
    requires a <= b && c >= 0
    ensures a * c <= b * c
  {
  }

  lemma {:induction false} TimesNext(a: int, c: int)
    ensures (a + 1) * c == a * c + c
  {
  }
}
