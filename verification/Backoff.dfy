/** The delay before a failed message is delivered again: capped exponential backoff with jitter, in nanoseconds. */
module Backoff {
  import opened Base

  newtype int64 = x: int | -0x8000_0000_0000_0000 <= x < 0x8000_0000_0000_0000

  const MILLISECOND: int64 := 1_000_000
  const MINUTE: int64 := 60_000_000_000
  const DEFAULT_BASE: int64 := 1_000_000_000
  const DEFAULT_MAXIMUM: int64 := 30_000_000_000

  function EffectiveBase(base: int64): (b: int64)
    ensures b > 0 && (base > 0 ==> b == base) && (base <= 0 ==> b == 1000 * MILLISECOND)
  {
    if base <= 0 then DEFAULT_BASE else base
  }

  function EffectiveMaximum(base: int64, maximum: int64): (m: int64)
    ensures m == maximum || m == 30_000 * MILLISECOND
    ensures maximum >= EffectiveBase(base) ==> m == maximum
    ensures maximum < EffectiveBase(base) ==> m == 30_000 * MILLISECOND
  {
    if maximum < EffectiveBase(base) then DEFAULT_MAXIMUM else maximum
  }

  function Doubled(base: nat, n: nat): nat {
    base * Power2(n)
  }

  /** The closed form, over unbounded integers. */
  function Capped(base: nat, maximum: nat, deliveries: nat): int {
    Min(Doubled(base, Max(1, Min(deliveries, 20)) - 1), maximum)
  }

  function Permille(delay: int, permille: int): int {
    delay * permille / 1000
  }

  function Jittered(delay: int, maximum: int, permille: int): int {
    var jittered := Permille(delay, permille);
    if jittered > maximum then maximum else if jittered < MILLISECOND as int then MILLISECOND as int else jittered
  }

  lemma {:induction false} Power2Grows(m: nat, n: nat)
    requires m <= n
    ensures 1 <= Power2(m) <= Power2(n)
  {
    if n > 0 {
      if m < n { Power2Grows(m, n - 1); } else { Power2Grows(m - 1, n - 1); }
    }
  }

  lemma Scale(base: nat, x: nat, y: nat)
    requires x <= y
    ensures base * x <= base * y
  {
  }

  lemma DoubledGrows(base: nat, m: nat, n: nat)
    requires m <= n
    ensures Doubled(base, 0) == base && Doubled(base, m + 1) == 2 * Doubled(base, m)
    ensures Doubled(base, m) <= Doubled(base, n)
  {
    Power2Grows(m, n);
    Scale(base, Power2(m), Power2(n));
    assert base * Power2(m + 1) == base * (2 * Power2(m));
  }

  /** The first wait is the base, and up to the twentieth delivery each wait doubles the one before, within the maximum. */
  lemma CappedDoubles(base: nat, maximum: nat, n: nat)
    ensures Capped(base, maximum, 0) == Capped(base, maximum, 1) == Min(base, maximum)
    ensures 1 <= n < 20 ==> Capped(base, maximum, n + 1) == Min(2 * Capped(base, maximum, n), maximum)
  {
    hide Doubled;
    DoubledGrows(base, if n == 0 then 0 else n - 1, n);
  }

  /** More deliveries never wait less, and no wait is above the maximum. */
  lemma CappedIsMonotone(base: nat, maximum: nat, m: nat, n: nat)
    requires m <= n
    ensures Capped(base, maximum, m) <= Capped(base, maximum, n) <= maximum
  {
    var x, y := Max(1, Min(m, 20)) - 1, Max(1, Min(n, 20)) - 1;
    DoubledGrows(base, x, y);
  }

  /** Every wait from the twentieth delivery on is the same; it is the maximum exactly when 2^19 bases reach it. */
  lemma CappedSaturates(base: nat, maximum: nat, n: nat)
    requires n >= 20
    ensures Capped(base, maximum, n) == Capped(base, maximum, 20)
    ensures Capped(base, maximum, n) == maximum <==> base * 0x8_0000 >= maximum
  {
    assert Power2(19) == 0x8_0000 by {
      assert Power2(4) == 16;
      assert Power2(9) == 32 * Power2(4);
      assert Power2(14) == 32 * Power2(9);
      assert Power2(19) == 32 * Power2(14);
    }
  }

  /** Without a clamp the jittered wait is the scaled delay, rounded down. */
  lemma JitterIsScaling(delay: nat, maximum: nat, permille: nat)
    ensures var r := Jittered(delay, maximum, permille);
            MILLISECOND as int < r < maximum ==> r * 1000 <= delay * permille < (r + 1) * 1000
  {
  }

  /** The jitter stays within a fifth of the delay, a millisecond and the maximum. */
  lemma JitterBounds(delay: nat, maximum: nat, permille: nat)
    requires delay <= maximum && 800 <= permille <= 1200
    ensures var r := Jittered(delay, maximum, permille);
            && r <= Max(maximum, MILLISECOND as int)
            && r >= Min(delay * 800 / 1000, maximum)
            && r <= Max(delay * 1200 / 1000, MILLISECOND as int)
  {
    Scale(delay, 800, permille);
    Scale(delay, permille, 1200);
  }

  /** Some delivery and some jitter wait longer than the maximum exactly when it is below a millisecond. */
  lemma AboveMaximumIff(base: nat, maximum: nat)
    ensures (exists deliveries: nat, permille: nat | 800 <= permille <= 1200 ::
               Jittered(Capped(base, maximum, deliveries), maximum, permille) > maximum)
            <==> maximum < MILLISECOND as int
  {
    var delay := Capped(base, maximum, 1);
    CappedIsMonotone(base, maximum, 1, 1);
    Scale(delay, 800, 1000);
    assert maximum < MILLISECOND as int ==> Jittered(delay, maximum, 800) > maximum;
  }

  /** `permille` is 800 plus a hash of the payload and the delivery number modulo 401. */
  method RetryDelay(permille: int64, deliveries: nat, base: int64, maximum: int64) returns (delay: int64)
    requires 800 <= permille <= 1200
    requires base <= MINUTE && maximum <= 15 * MINUTE
    ensures var b, m := EffectiveBase(base) as int, EffectiveMaximum(base, maximum) as int;
            delay as int == Jittered(Capped(b, m, deliveries), m, permille as int)
  {
    hide Permille;
    hide Capped;
    var first, cap := base, maximum;
    if first <= 0 { first := DEFAULT_BASE; }
    if cap < first { cap := DEFAULT_MAXIMUM; }
    var wait := Double(deliveries, first, cap);
    CappedIsMonotone(first as int, cap as int, deliveries, deliveries);
    var jittered := Scaled(wait, permille);
    if jittered > cap { return cap; }
    if jittered < MILLISECOND { return MILLISECOND; }
    delay := jittered;
  }

  method Scaled(wait: int64, permille: int64) returns (jittered: int64)
    requires 0 <= wait <= 15 * MINUTE && 800 <= permille <= 1200
    ensures jittered as int == Permille(wait as int, permille as int)
  {
    ProductFits(wait as int, permille as int);
    var product := wait * permille;
    jittered := product / 1000;
  }

  lemma ProductFits(wait: nat, permille: nat)
    requires wait <= 900_000_000_000 && permille <= 1200
    ensures 0 <= wait * permille < 0x8000_0000_0000_0000
  {
    Scale(wait, permille, 1200);
  }

  /** Doubling up to the cap; the test against half the cap keeps every product within it. */
  method Double(deliveries: nat, base: int64, cap: int64) returns (wait: int64)
    requires 0 < base && 0 < cap
    ensures 0 < wait && wait as int == Capped(base as int, cap as int, deliveries)
  {
    hide Doubled;
    var exponent := if deliveries > 20 then 20 else deliveries;
    wait := base;
    var i := 1;
    ghost var last := Max(1, exponent);
    DoubledGrows(base as int, 0, 0);
    while i < exponent && wait < cap
      invariant 1 <= i <= last && 0 < wait
      invariant wait as int == Doubled(base as int, i - 1)
      decreases exponent - i
    {
      if wait > cap / 2 {
        DoubledGrows(base as int, i - 1, i);
        DoubledGrows(base as int, i, last - 1);
        wait := cap;
        return;
      }
      DoubledGrows(base as int, i - 1, i);
      wait := wait * 2;
      i := i + 1;
    }
    DoubledGrows(base as int, i - 1, last - 1);
    if wait > cap { wait := cap; }
  }
}
