/** 64-bit durations and the doubling both retry loops share. */
module Durations {

  const SECOND: int := 1_000_000_000

  /** Two's-complement reduction to int64. */
  function Wrap64(n: int): (r: int)
    ensures -0x8000_0000_0000_0000 <= r < 0x8000_0000_0000_0000
    ensures -0x8000_0000_0000_0000 <= n < 0x8000_0000_0000_0000 ==> r == n
  {
    (n + 0x8000_0000_0000_0000) % 0x1_0000_0000_0000_0000 - 0x8000_0000_0000_0000
  }

  function Pow2(n: nat): (p: nat)
    ensures p >= 1
  {
    if n == 0 then 1 else 2 * Pow2(n - 1)
  }

  function Min(a: int, b: int): int {
    if a <= b then a else b
  }

  function Max(a: int, b: int): int {
    if a >= b then a else b
  }

  // Doubling a capped power and capping again is the next capped power.
  lemma CappedDoubling(base: int, n: nat, cap: int)
    requires base >= 0 && cap >= 0
    ensures Min(2 * Min(base * Pow2(n), cap), cap) == Min(base * Pow2(n + 1), cap)
    ensures 0 <= Min(base * Pow2(n), cap) <= cap
  {
    assert base * Pow2(n + 1) == 2 * (base * Pow2(n));
    assert base * Pow2(n) >= 0;
  }

  // A positive base doubled often enough passes every bound, and not by more than the bound itself.
  lemma DoublingPasses(base: int, bound: int) returns (n: nat)
    requires 0 < base <= bound
    ensures bound < base * Pow2(n + 1) <= 2 * bound && base * Pow2(n) <= bound
  {
    n := 0;
    while base * Pow2(n + 1) <= bound
      invariant base * Pow2(n) <= bound
      decreases bound - base * Pow2(n)
    {
      assert base * Pow2(n + 1) == 2 * (base * Pow2(n)) && base * Pow2(n) >= 1;
      n := n + 1;
    }
    assert base * Pow2(n + 1) == 2 * (base * Pow2(n));
  }
}
