/** Arithmetic and instants shared by the modelled components. */
module Numbers {
  import opened Text

  function Min(a: int, b: int): int { if a <= b then a else b }

  function Max(a: int, b: int): int { if a >= b then a else b }

  lemma MulMonotone(x: nat, y: nat, d: nat)
    requires x <= y
    ensures x * d <= y * d
  {
    assert y * d == x * d + (y - x) * d;
  }

  lemma PowerPositive(base: nat, n: nat)
    requires base > 0
    ensures Power(base, n) > 0
  {
  }

  lemma {:induction false} PowerMonotone(a: nat, b: nat)
    requires a <= b
    ensures Power(2, a) <= Power(2, b)
  {
    if a < b { PowerMonotone(a, b - 1); }
  }

  // --- Instants ------------------------------------------------------------

  /** First and last representable instants in milliseconds, years -9999 and 9999. */
  const MIN_TIME: int := -377705116800000
  const MAX_TIME: int := 253402300799999

  /** `Timestamp::checked_add`. */
  function CheckedAdd(now: int, delay: int): Option<int> {
    if MIN_TIME <= now + delay <= MAX_TIME then Some(now + delay) else None
  }
}
