/** Exponential backoff in 64-bit arithmetic. */
module Backoff {
  import opened Integers

  /** k more doublings from d, each wrapping, cut off at max. */
  function Doubled(d: int, max: int, k: nat): int
    decreases k
  {
    if k == 0 then d
    else
      var e := Wrap64(d * 2);
      if e >= max then max else Doubled(e, max, k - 1)
  }

  method BackoffDelay(initial: int, max: int, attempt: int) returns (d: int)
    requires IsInt64(initial) && IsInt64(max)
    ensures d == Doubled(initial, max, if attempt > 1 then attempt - 1 else 0)
  {
    d := initial;
    var i := 1;
    while i < attempt
      invariant 1 <= i && (i <= attempt || attempt < 1)
      invariant Doubled(initial, max, if attempt > 1 then attempt - 1 else 0) ==
                Doubled(d, max, if attempt > i then attempt - i else 0)
    {
      d := Wrap64(d * 2);
      if d >= max {
        return max;
      }
      i := i + 1;
    }
  }

  function Pow2(k: nat): (p: int)
    ensures p >= 1
  {
    if k == 0 then 1 else 2 * Pow2(k - 1)
  }

  function Min(a: int, b: int): int {
    if a <= b then a else b
  }

  /** The intended delay: the first one as it is, then doubling up to max. */
  function Intended(initial: int, max: int, k: nat): int {
    if k == 0 then initial else Min(initial * Pow2(k), max)
  }

  /** The doublings stay in range until max is reached. */
  predicate Fits(d: int, max: int)
    requires d > 0
    decreases max - d
  {
    2 * d <= MAX64 && (2 * d >= max || Fits(2 * d, max))
  }

  lemma {:induction false} IntendedShift(d: int, max: int, k: nat)
    requires 0 < d && k > 0
    ensures Intended(d, max, k) == if 2 * d >= max then max else Intended(2 * d, max, k - 1)
  {
    assert d * Pow2(k) == (2 * d) * Pow2(k - 1);
    if k > 1 {
      assert Pow2(k - 1) >= 1;
      assert (2 * d) * Pow2(k - 1) >= 2 * d;
    }
  }

  lemma {:induction false} FitsMeansIntended(d: int, max: int, k: nat)
    requires 0 < d && Fits(d, max)
    ensures Doubled(d, max, k) == Intended(d, max, k)
    decreases k
  {
    if k > 0 {
      IntendedShift(d, max, k);
      if 2 * d < max {
        FitsMeansIntended(2 * d, max, k - 1);
      }
    }
  }

  /** A doubling that leaves the range turns the delay negative. */
  lemma {:induction false} UnfitTurnsNegative(d: int, max: int) returns (k: nat)
    requires 0 < d <= MAX64 && 0 < max <= MAX64 && !Fits(d, max)
    ensures Doubled(d, max, k) < 0 < Intended(d, max, k)
    decreases max - d
  {
    if 2 * d > MAX64 {
      k := 1;
      assert Pow2(1) == 2;
      assert Doubled(d, max, 1) == Doubled(Wrap64(d * 2), max, 0);
    } else {
      var j := UnfitTurnsNegative(2 * d, max);
      k := j + 1;
      IntendedShift(d, max, k);
    }
  }

  /** The backoff is min(initial * 2^(attempt-1), max), for every attempt, exactly when the doublings fit. */
  lemma BackoffExactIff(initial: int, max: int)
    requires 0 < initial <= MAX64 && 0 < max <= MAX64
    ensures (forall k: nat :: Doubled(initial, max, k) == Intended(initial, max, k)) <==> Fits(initial, max)
  {
    if Fits(initial, max) {
      forall k: nat ensures Doubled(initial, max, k) == Intended(initial, max, k) {
        FitsMeansIntended(initial, max, k);
      }
    } else {
      var k := UnfitTurnsNegative(initial, max);
    }
  }

  /** Any setting with both durations below 2^62 ns (146 years) fits. */
  lemma {:induction false} SmallSettingsFit(d: int, max: int)
    requires 0 < d < 0x4000_0000_0000_0000 && max <= 0x4000_0000_0000_0000
    ensures Fits(d, max)
    decreases max - d
  {
    if 2 * d < max {
      SmallSettingsFit(2 * d, max);
    }
  }

  /** At 2^62 it no longer does: the second attempt waits a negative time. */
  lemma BackoffOverflow()
    ensures var d := 0x4000_0000_0000_0000; !Fits(d, d) && Doubled(d, d, 1) == MIN64
  {
  }

  lemma {:induction false} Pow2Monotone(j: nat, k: nat)
    requires j <= k
    ensures Pow2(j) <= Pow2(k)
  {
    if j < k {
      Pow2Monotone(j, k - 1);
    }
  }

  /** The intended delays grow up to max. */
  lemma IntendedMonotone(initial: int, max: int, j: nat, k: nat)
    requires 0 < initial <= max && j <= k
    ensures Intended(initial, max, j) <= Intended(initial, max, k)
  {
    Pow2Monotone(j, k);
    ProductMonotone(initial, Pow2(j), Pow2(k));
    ProductMonotone(initial, 1, Pow2(k));
  }

  lemma ProductMonotone(a: int, b: int, c: int)
    requires 0 < a && b <= c
    ensures a * b <= a * c
  {
    assert a * (c - b) >= 0;
  }

  /** Waiting never gets shorter from one attempt to the next exactly when the doublings fit and the first
      wait is at most max. */
  lemma BackoffMonotoneIff(initial: int, max: int)
    requires 0 < initial <= MAX64 && 0 < max <= MAX64
    ensures (forall j: nat, k: nat :: j <= k ==> Doubled(initial, max, j) <= Doubled(initial, max, k)) <==>
            Fits(initial, max) && initial <= max
  {
    if !Fits(initial, max) {
      var k := UnfitTurnsNegative(initial, max);
      assert Doubled(initial, max, 0) > Doubled(initial, max, k);
    } else if initial > max {
      FitsMeansIntended(initial, max, 1);
      assert Doubled(initial, max, 0) > Doubled(initial, max, 1);
    } else {
      hide Intended;
      forall j: nat, k: nat | j <= k ensures Doubled(initial, max, j) <= Doubled(initial, max, k) {
        FitsMeansIntended(initial, max, j);
        FitsMeansIntended(initial, max, k);
        IntendedMonotone(initial, max, j, k);
      }
    }
  }
}
