/** internal/reliable: the retransmission delay, computed as a time.Duration in int64 nanoseconds. */
module RetransmitDelay {

  import opened Bytes

  const RETRANSMIT_TIMEOUT := 2_000_000_000
  const BACKOFF_CAP := 30_000_000_000

  /** The value an int64 keeps of `x`. */
  function Wrap64(x: int): int {
    (x + 0x8000_0000_0000_0000) % 0x1_0000_0000_0000_0000 - 0x8000_0000_0000_0000
  }

  /** `1 << k` as a Duration: the set bit leaves the word at k = 64. */
  function ShiftedOne(k: nat): int {
    if k >= 64 then 0 else Wrap64(Pow2(k))
  }

  /** The delay after the k-th retransmission, in int64 arithmetic. */
  function Backoff(k: nat): int {
    var delay := Wrap64(RETRANSMIT_TIMEOUT * ShiftedOne(k));
    if delay > BACKOFF_CAP then BACKOFF_CAP else delay
  }

  function IntendedBackoff(k: nat): int {
    var delay := RETRANSMIT_TIMEOUT * Pow2(k);
    if delay > BACKOFF_CAP then BACKOFF_CAP else delay
  }

  /**
   * Two seconds is 5^9 * 2^10 ns, so after k doublings bit 53 - k of 5^9 is the sign bit of the
   * product, and from k = 54 on nothing of 5^9 is left in the word.
   */
  predicate SignBitClear(k: nat) {
    k <= 32 || (k <= 53 && 1953125 / Pow2(53 - k) % 2 == 0)
  }

  lemma {:induction false} Pow2Add(j: nat, k: nat)
    ensures Pow2(j + k) == Pow2(j) * Pow2(k)
    decreases k
  {
    if k == 0 {
    } else {
      Pow2Add(j, k - 1);
      assert Pow2(j + k) == 2 * Pow2(j + k - 1);
    }
  }

  lemma {:induction false} Pow2Monotone(j: nat, k: nat)
    requires j <= k
    ensures Pow2(j) <= Pow2(k)
    decreases k
  {
    if j < k {
      Pow2Monotone(j, k - 1);
    }
  }

  lemma Pow2Values()
    ensures Pow2(10) == 0x400 && Pow2(32) == 0x1_0000_0000 && Pow2(43) == 0x800_0000_0000
    ensures Pow2(62) == 0x4000_0000_0000_0000 && Pow2(63) == 0x8000_0000_0000_0000
    ensures Pow2(64) == 0x1_0000_0000_0000_0000
  {
    assert Pow2(5) == 32;
    Pow2Add(5, 5);
    Pow2Add(10, 1);
    Pow2Add(10, 11);
    Pow2Add(21, 11);
    Pow2Add(32, 11);
    Pow2Add(32, 32);
  }

  lemma WrapDropsMultiples(h: int, y: int)
    requires -0x8000_0000_0000_0000 <= y < 0x8000_0000_0000_0000
    ensures Wrap64(h * 0x1_0000_0000_0000_0000 + y) == y
  {
  }

  /** Up to k = 62 the shifted one itself fits, and the product is 5^9 * 2^(k+10). */
  lemma ProductShape(k: nat)
    requires k <= 62
    ensures RETRANSMIT_TIMEOUT * ShiftedOne(k) == RETRANSMIT_TIMEOUT * Pow2(k) == 1953125 * Pow2(k + 10)
  {
    Pow2Values();
    Pow2Monotone(k, 62);
    Pow2Add(k, 10);
  }

  lemma BackoffSmall(k: nat)
    requires k <= 32
    ensures Backoff(k) == IntendedBackoff(k) > 0
  {
    var delay := RETRANSMIT_TIMEOUT * Pow2(k);
    assert RETRANSMIT_TIMEOUT * ShiftedOne(k) == delay by { ProductShape(k); }
    assert 0 < delay < 0x8000_0000_0000_0000 by { Pow2Values(); Pow2Monotone(k, 32); }
    WrapDropsMultiples(0, delay);
  }

  lemma OddNotMultiple(m: nat)
    requires m >= 1
    ensures 1953125 % Pow2(m) >= 1
  {
    var q, r := 1953125 / Pow2(m), 1953125 % Pow2(m);
    assert q * Pow2(m) == 2 * (q * Pow2(m - 1));
    assert 1953125 == 2 * (q * Pow2(m - 1)) + r;
  }

  /** Which part of c * unit is left in an int64, when `p` units fill half the word. */
  lemma SignedPart(c: nat, unit: nat, p: nat)
    requires p > 0 && unit * p == 0x8000_0000_0000_0000
    ensures var x := c % p * unit;
            && 0 <= x < 0x8000_0000_0000_0000
            && Wrap64(c * unit) == if c / p % 2 == 0 then x else x - 0x8000_0000_0000_0000
  {
    var q, r := c / p, c % p;
    var x := r * unit;
    assert x <= (p - 1) * unit == unit * p - unit;
    assert unit > 0;
    calc {
      c * unit;
      (q * p + r) * unit;
      q * p * unit + x;
      { assert q * p * unit == q * (unit * p); }
      q * 0x8000_0000_0000_0000 + x;
    }
    var h := q / 2;
    if q % 2 == 0 {
      WrapDropsMultiples(h, x);
    } else {
      WrapDropsMultiples(h + 1, x - 0x8000_0000_0000_0000);
    }
  }

  lemma LargeDelay(unit: nat, p: nat)
    requires p > 0 && unit * p == 0x8000_0000_0000_0000 && unit >= 0x800_0000_0000
    requires 1953125 % p >= 1
    ensures var delay := Wrap64(1953125 * unit);
            if 1953125 / p % 2 == 0 then delay > BACKOFF_CAP else delay < 0
  {
    SignedPart(1953125, unit, p);
    AtLeastOneUnit(1953125 % p, unit);
  }

  lemma AtLeastOneUnit(r: nat, unit: nat)
    requires r >= 1
    ensures r * unit >= unit
  {
  }

  lemma BackoffLarge(k: nat)
    requires 33 <= k <= 53
    ensures if SignBitClear(k) then Backoff(k) == BACKOFF_CAP else Backoff(k) < 0
  {
    var unit, p := Pow2(k + 10), Pow2(53 - k);
    assert RETRANSMIT_TIMEOUT * ShiftedOne(k) == 1953125 * unit by { ProductShape(k); }
    assert unit * p == 0x8000_0000_0000_0000 by { Pow2Values(); Pow2Add(k + 10, 53 - k); }
    if k == 53 {
      SignedPart(1953125, unit, p);
    } else {
      OddNotMultiple(53 - k);
      assert unit >= 0x800_0000_0000 by { Pow2Values(); Pow2Monotone(43, k + 10); }
      LargeDelay(unit, p);
    }
  }

  lemma BackoffVanishes(k: nat)
    requires k >= 54
    ensures Backoff(k) == 0
  {
    if k <= 62 {
      var h := 1953125 * Pow2(k - 54);
      assert RETRANSMIT_TIMEOUT * ShiftedOne(k) == h * 0x1_0000_0000_0000_0000 by { WholeWords(k); }
      WrapDropsMultiples(h, 0);
    } else if k == 63 {
      assert ShiftedOne(63) == -0x8000_0000_0000_0000 by { Pow2Values(); }
      WrapDropsMultiples(-1_000_000_000, 0);
    }
  }

  lemma WholeWords(k: nat)
    requires 54 <= k <= 62
    ensures RETRANSMIT_TIMEOUT * ShiftedOne(k) == 1953125 * Pow2(k - 54) * 0x1_0000_0000_0000_0000
  {
    ProductShape(k);
    Pow2Values();
    Pow2Add(64, k - 54);
  }

  /**
   * The doubled and capped delay is what the code computes exactly while the sign bit stays clear;
   * from the 33rd retransmission on that fails for most counts, and the deadline is not in the future.
   */
  lemma BackoffExactly(k: nat)
    ensures Backoff(k) == IntendedBackoff(k) <==> SignBitClear(k)
    ensures Backoff(k) > 0 <==> SignBitClear(k)
  {
    if k <= 32 {
      BackoffSmall(k);
    } else {
      Pow2Values();
      Pow2Monotone(32, k);
      assert IntendedBackoff(k) == BACKOFF_CAP;
      if k <= 53 {
        BackoffLarge(k);
      } else {
        BackoffVanishes(k);
      }
    }
  }
}
