/**
 Retry backoff of a campaign: doubling from a base up to a cap. The scheduler works
 in saturating 64-bit arithmetic; the reference multiplies in 128 bits and takes a
 shortcut from the 64th attempt on.
 */
module RetryPolicy {
  const I64_MAX := 0x7FFF_FFFF_FFFF_FFFF
  const U128_MAX := 0xFFFF_FFFF_FFFF_FFFF_FFFF_FFFF_FFFF_FFFF

  /** What policy validation guarantees of the two backoff fields. */
  predicate ValidBackoff(base: int, cap: int)
  {
    1 <= base <= cap <= I64_MAX
  }

  function Min(a: int, b: int): (m: int)
  {
    if a < b then a else b
  }

  function Pow2(k: nat): (n: int)
    ensures n >= 1
  {
    if k == 0 then 1 else 2 * Pow2(k - 1)
  }

  function Exponent(attempt: nat): (e: nat)
  {
    if attempt == 0 then 0 else attempt - 1
  }

  /** The capped exponential over unbounded integers. */
  function Delay(base: int, cap: int, attempt: nat): (d: int)
  {
    Min(base * Pow2(Exponent(attempt)), cap)
  }

  function ReferenceDelay(base: int, cap: int, attempt: nat): (d: int)
  {
    if attempt >= 64 then cap else Min(base * Pow2(Exponent(attempt)), cap)
  }

  /** `checked_pow` then `unwrap_or(i64::MAX)`: the power if it fits in 64 bits. */
  function CheckedPow2(k: nat): (n: int)
  {
    if Pow2(k) <= I64_MAX then Pow2(k) else I64_MAX
  }

  function SchedulerDelay(base: int, cap: int, attempt: nat): (d: int)
  {
    Min(Min(base * CheckedPow2(Exponent(attempt)), I64_MAX), cap)
  }

  lemma Pow2Values()
    ensures Pow2(62) == 0x4000_0000_0000_0000 && Pow2(63) == I64_MAX + 1
  {
    assert Pow2(8) == 0x100 && Pow2(16) == 0x1_0000 && Pow2(24) == 0x100_0000 && Pow2(32) == 0x1_0000_0000;
    assert Pow2(40) == 0x100_0000_0000 && Pow2(48) == 0x1_0000_0000_0000 && Pow2(56) == 0x100_0000_0000_0000;
  }

  lemma {:induction false} Pow2Monotone(j: nat, k: nat)
    requires j <= k
    ensures Pow2(j) <= Pow2(k)
    decreases k
  {
    if j < k {
      Pow2Monotone(j, k - 1);
    }
  }

  lemma Scaled(base: int, a: int, b: int)
    requires base >= 1 && 1 <= a <= b
    ensures base <= base * a <= base * b && a <= base * a
  {
  }

  /** Both computations are the unbounded formula, for every attempt count. */
  lemma DelaysAgree(base: int, cap: int, attempt: nat)
    requires ValidBackoff(base, cap)
    ensures ReferenceDelay(base, cap, attempt) == Delay(base, cap, attempt)
    ensures SchedulerDelay(base, cap, attempt) == Delay(base, cap, attempt)
    ensures attempt < 64 ==> base * Pow2(Exponent(attempt)) <= U128_MAX
  {
    hide Pow2;
    Pow2Values();
    var e := Exponent(attempt);
    if e <= 62 {
      Pow2Monotone(e, 62);
      Scaled(base, Pow2(e), Pow2(62));
      assert base * Pow2(62) <= I64_MAX * Pow2(62);
    } else {
      Pow2Monotone(63, e);
      Scaled(base, Pow2(63), Pow2(e));
      Scaled(base, I64_MAX, Pow2(e));
    }
  }

  /** Delays lie between one second and the cap and never shrink from one attempt to a later one. */
  lemma DelayMonotone(base: int, cap: int, a: nat, b: nat)
    requires ValidBackoff(base, cap) && a <= b
    ensures 1 <= Delay(base, cap, a) <= Delay(base, cap, b) <= cap
    ensures Delay(base, cap, 0) == Delay(base, cap, 1) == base
  {
    Pow2Monotone(Exponent(a), Exponent(b));
    Scaled(base, Pow2(Exponent(a)), Pow2(Exponent(b)));
  }

  /** From the first attempt on, each delay is twice the one before, up to the cap. */
  lemma DelayDoubles(base: int, cap: int, attempt: nat)
    requires ValidBackoff(base, cap) && attempt >= 1
    ensures Delay(base, cap, attempt + 1) == Min(2 * Delay(base, cap, attempt), cap)
  {
    var p := Pow2(attempt - 1);
    assert Pow2(attempt) == 2 * p;
    assert base * (2 * p) == 2 * (base * p);
  }
}
