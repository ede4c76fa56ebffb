/**
 Reconnect delays (slt-client/src/runtime/mod.rs). Durations are in nanoseconds, delays in
 milliseconds; the random number is a parameter.
 */
module Backoff {
  import opened Bytes

  const MILLI: nat := 1_000_000

  /** The longest representable duration. */
  const DURATION_MAX: nat := (U64_MAX + 1) * 1_000_000_000 - 1

  function Millis(d: nat): nat {
    Min(d / MILLI, U64_MAX)
  }

  function Pow2(n: nat): nat {
    if n == 0 then 1 else 2 * Pow2(n - 1)
  }

  /** The backoff after `n` delays since the last reset. */
  function Level(base: nat, max: nat, n: nat): nat {
    if n == 0 then base else Min(2 * Level(base, max, n - 1), max)
  }

  lemma {:induction false} LevelDoublesUpToMax(base: nat, max: nat, n: nat)
    requires base <= max
    ensures Level(base, max, n) == Min(base * Pow2(n), max)
  {
    if n == 0 {
      assert base * 1 == base;
    } else {
      LevelDoublesUpToMax(base, max, n - 1);
      assert base * Pow2(n) == 2 * (base * Pow2(n - 1));
    }
  }

  class ReconnectBackoff {
    const base: nat
    const max: nat
    var current: nat
    /** Delays since the last reset. */
    ghost var taken: nat

    ghost predicate Valid()
      reads this
    {
      base <= DURATION_MAX && max <= DURATION_MAX && current <= DURATION_MAX && current == Level(base, max, taken)
    }

    constructor (base: nat, max: nat)
      requires base <= DURATION_MAX && max <= DURATION_MAX
      ensures Valid() && taken == 0 && this.base == base && this.max == max
    {
      this.base, this.max, current := base, max, base;
      taken := 0;
    }

    method Reset()
      requires Valid()
      modifies this
      ensures Valid() && taken == 0
    {
      current := base;
      taken := 0;
    }

    /** At least half and at most the whole of the current backoff, which then doubles. */
    method NextDelay(random: nat -> nat) returns (delay: nat)
      requires Valid() && forall bound: nat :: random(bound) <= bound
      modifies this
      ensures Valid() && taken == old(taken) + 1
      ensures var cap := Millis(Level(base, max, old(taken))); cap - cap / 2 <= delay <= cap
    {
      var cap := current;
      var next := if 2 * current > DURATION_MAX then max else 2 * current;
      current := Min(next, max);
      taken := taken + 1;
      var capMs := Min(cap / MILLI, U64_MAX);
      var half := capMs / 2;
      var jitter := if half > 0 then random(half) else 0;
      delay := Min(capMs - half + jitter, U64_MAX);
    }
  }

  /**
   Under a validated configuration (a minimum of at least a millisecond, not above the maximum), the
   `n`-th delay is never zero and lies between half and all of the doubled minimum, capped.
   */
  lemma DelayRange(base: nat, max: nat, n: nat, delay: nat)
    requires MILLI <= base <= max <= DURATION_MAX
    requires var cap := Millis(Level(base, max, n)); cap - cap / 2 <= delay <= cap
    ensures 1 <= delay && delay <= Millis(max)
    ensures Millis(Min(base * Pow2(n), max)) <= 2 * delay && delay <= Millis(Min(base * Pow2(n), max))
    ensures delay * 1_000_000 <= Min(base * Pow2(n), max)
    ensures max / 1_000_000 <= U64_MAX ==> Min(base * Pow2(n), max) < (2 * delay + 1) * 1_000_000
  {
    hide Level, Pow2, Millis;
    LevelDoublesUpToMax(base, max, n);
    Pow2Positive(n);
    AtLeastOnce(base, Pow2(n));
    MillisGrows(MILLI, Level(base, max, n));
    MillisGrows(Level(base, max, n), max);
    assert Millis(MILLI) == 1 by { OneMilli(); }
    MillisAreMillionths(Min(base * Pow2(n), max), max, delay);
  }

  lemma MillisAreMillionths(cap: nat, max: nat, delay: nat)
    requires cap <= max && Millis(cap) <= 2 * delay && delay <= Millis(cap)
    ensures delay * 1_000_000 <= cap
    ensures max / 1_000_000 <= U64_MAX ==> cap < (2 * delay + 1) * 1_000_000
  {
    assert cap == cap / MILLI * MILLI + cap % MILLI;
  }

  lemma AtLeastOnce(a: nat, k: nat)
    requires 1 <= k
    ensures a <= a * k
  {
  }

  lemma OneMilli()
    ensures Millis(MILLI) == 1
  {
  }

  lemma MillisGrows(a: nat, b: nat)
    requires a <= b
    ensures Millis(a) <= Millis(b)
  {
  }

  lemma {:induction false} Pow2Positive(n: nat)
    ensures 1 <= Pow2(n)
  {
    if n > 0 {
      Pow2Positive(n - 1);
    }
  }
}
