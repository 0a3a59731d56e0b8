/** Powers of two, and the smaller and the larger of two numbers. */
module Arithmetic {

  function Min(a: int, b: int): int {
    if a <= b then a else b
  }

  function Max(a: int, b: int): int {
    if a >= b then a else b
  }

  function Pow2(n: nat): (p: nat)
    ensures p > 0
  {
    if n == 0 then 1 else 2 * Pow2(n - 1)
  }

  lemma {:induction false} Pow2Add(a: nat, b: nat)
    ensures Pow2(a + b) == Pow2(a) * Pow2(b)
    decreases a
  {
    if a > 0 { Pow2Add(a - 1, b); }
  }

  lemma {:induction false} Pow2Mono(a: nat, b: nat)
    requires a <= b
    ensures Pow2(a) <= Pow2(b)
    decreases b - a
  {
    if a < b { Pow2Mono(a, b - 1); }
  }

  /** next_power_of_two, as the exponent. */
  function LogUp(n: nat, start: nat := 0): (k: nat)
    requires start == 0 || Pow2(start - 1) < n
    ensures n <= Pow2(k) && k >= start && (k == 0 || Pow2(k - 1) < n)
    decreases n - Pow2(start)
  {
    if n <= Pow2(start) then start else LogUp(n, start + 1)
  }
}
