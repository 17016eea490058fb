/** Exponential backoff between restarts, with Go's fixed-width arithmetic written out
    (internal/s/restart_tolerance.go). */
module Backoff {
  import opened Types
  import Tolerance

  const TWO_63 := 0x8000_0000_0000_0000
  const TWO_64 := 0x1_0000_0000_0000_0000

  /** The int64 that the low 64 bits of `x` denote. */
  function Wrap64(x: int): int64 { (x + TWO_63) % TWO_64 - TWO_63 }

  function Pow2(n: nat): (r: nat)
    ensures r >= 1
  {
    if n == 0 then 1 else 2 * Pow2(n - 1)
  }

  /** `time.Duration(1 << s)`: an int64 shift, which empties the word from 64 on. */
  function Shl1(s: uint32): int64 {
    if s < 63 then PowersFit(s); Pow2(s) else if s == 63 then -TWO_63 else 0
  }

  lemma {:induction false} PowersFit(s: nat)
    requires s < 63
    ensures Pow2(s) <= Pow2(62) == 0x4000_0000_0000_0000
  {
    PowMonotone(s, 62);
    SmallPowers();
    PowAdd(10, 10);
    PowAdd(20, 20);
    PowAdd(40, 20);
    PowAdd(60, 2);
  }

  lemma SmallPowers()
    ensures Pow2(2) == 4 && Pow2(10) == 1024
  {
    assert Pow2(4) == 16;
    assert Pow2(7) == 128;
  }

  lemma {:induction false} PowMonotone(a: nat, b: nat)
    requires a <= b
    ensures Pow2(a) <= Pow2(b)
    decreases b
  {
    if a < b { PowMonotone(a, b - 1); }
  }

  lemma {:induction false} PowAdd(a: nat, b: nat)
    ensures Pow2(a + b) == Pow2(a) * Pow2(b)
    decreases b
  {
    if b > 0 {
      PowAdd(a, b - 1);
      assert a + b - 1 == a + (b - 1);
    }
  }

  datatype Backoff = Backoff(base: int64, max: int64)

  function Pred32(n: uint32): uint32 { (n + UINT32_MAX) % (UINT32_MAX + 1) }

  function Duration(rb: Backoff, count: uint32): int64 {
    if rb.base == 0 then 0
    else
      var dur := Wrap64(Shl1(Pred32(count)) * rb.base);
      if dur > rb.max then rb.max else dur
  }

  function Min(a: int, b: int): int { if a <= b then a else b }

  /** The wait that the configuration asks for: `base` doubled at each restart, capped by `max`. */
  function Intended(rb: Backoff, count: uint32): int
    requires count >= 1
  {
    Min(rb.base * Pow2(count - 1), rb.max)
  }

  lemma WrapShift(x: int, k: int)
    ensures Wrap64(x + TWO_64 * k) == Wrap64(x)
  {
    ModShift(x + TWO_63, k);
    assert x + TWO_64 * k + TWO_63 == x + TWO_63 + TWO_64 * k;
  }

  lemma ModShift(x: int, k: int)
    ensures (x + TWO_64 * k) % TWO_64 == x % TWO_64
  {
    var q, r := x / TWO_64, x % TWO_64;
    assert x + TWO_64 * k == TWO_64 * (q + k) + r;
    DivisionIsUnique(x + TWO_64 * k, q + k, r);
  }

  lemma DivisionIsUnique(x: int, q: int, r: int)
    requires x == TWO_64 * q + r && 0 <= r < TWO_64
    ensures x % TWO_64 == r
  {
    var q', r' := x / TWO_64, x % TWO_64;
    assert x == TWO_64 * q' + r';
    assert TWO_64 * (q - q') == r' - r;
    assert q - q' == 0;
  }

  /** The machine product is the exact product modulo 2^64, however far the shift goes. */
  lemma {:induction false} MachineProduct(base: int64, count: uint32)
    requires count >= 1
    ensures Wrap64(Shl1(Pred32(count)) * base) == Wrap64(base * Pow2(count - 1))
  {
    var s := count - 1;
    assert Pred32(count) == s;
    if s < 63 {
      assert Shl1(s) * base == base * Pow2(s);
    } else {
      TopPowers();
      if s == 63 {
        WrapShift(-TWO_63 * base, base);
        assert base * Pow2(63) == -TWO_63 * base + TWO_64 * base;
      } else {
        BeyondTheWord(base, s);
      }
    }
  }

  lemma TopPowers()
    ensures Pow2(63) == TWO_63 && Pow2(64) == TWO_64
  {
    PowersFit(62);
    PowAdd(62, 1);
    PowAdd(63, 1);
  }

  lemma {:induction false} BeyondTheWord(base: int64, s: nat)
    requires s >= 64
    ensures Wrap64(base * Pow2(s)) == Wrap64(0)
  {
    TopPowers();
    PowAdd(64, s - 64);
    WrapShift(0, base * Pow2(s - 64));
    Regroup(base, TWO_64, Pow2(s - 64));
  }

  lemma Regroup(a: int, b: int, c: int)
    ensures a * (b * c) == b * (a * c)
  {}

  predicate FitsInt64(p: int) { -TWO_63 <= p <= INT64_MAX }

  /** Exactly when the computed wait is the intended one, whatever base and cap are: the product fits in an int64, or it
      and its wrapped value both reach the cap; a zero base ignores a negative cap. */
  lemma {:induction false} DurationIsIntendedExactly(rb: Backoff, count: uint32)
    requires count >= 1
    ensures var p := rb.base * Pow2(count - 1);
            Duration(rb, count) == Intended(rb, count)
            <==> if rb.base == 0 then rb.max >= 0 else FitsInt64(p) || (p >= rb.max && Wrap64(p) >= rb.max)
  {
    var p := rb.base * Pow2(count - 1);
    DurationIsMin(rb, count);
    WrapIsIdentityExactly(p);
  }

  lemma {:induction false} DurationIsMin(rb: Backoff, count: uint32)
    requires count >= 1
    ensures Duration(rb, count) == if rb.base == 0 then 0 else Min(Wrap64(rb.base * Pow2(count - 1)), rb.max)
  {
    MachineProduct(rb.base, count);
  }

  lemma WrapIsIdentityExactly(p: int)
    ensures Wrap64(p) == p <==> FitsInt64(p)
  {
    if FitsInt64(p) { DivisionIsUnique(p + TWO_63, 0, p + TWO_63); }
  }

  /** Count 0 is reached by a completion before any failure; the shift amount wraps to the top of
      uint32 and the wait is zero. */
  lemma NoWaitAtCountZero(rb: Backoff)
    requires rb.max >= 0
    ensures Duration(rb, 0) == 0
  {
    assert Pred32(0) == UINT32_MAX;
    assert Wrap64(0) == 0;
  }

  /** From the 65th restart of a window on, no configuration waits at all. */
  lemma NoWaitBeyondSixtyFour(rb: Backoff, count: uint32)
    requires rb.max >= 0 && count >= 65
    ensures Duration(rb, count) == 0
  {
    assert Pred32(count) == count - 1;
    assert Wrap64(0) == 0;
  }

  /** At the 64th a one-nanosecond base already yields a negative duration, so no wait. */
  lemma NegativeWaitAtSixtyFour()
    ensures Duration(Backoff(1, INT64_MAX), 64) == -TWO_63
  {
    assert Pred32(64) == 63;
    assert Wrap64(-TWO_63) == -TWO_63;
  }

  /** While the largest product fits, the wait never shrinks as the counter grows. */
  lemma {:induction false} DurationIsMonotone(rb: Backoff, a: uint32, b: uint32)
    requires rb.base > 0 && rb.max >= 0 && 1 <= a <= b
    requires rb.base * Pow2(b - 1) <= INT64_MAX
    ensures Duration(rb, a) == Intended(rb, a) <= Intended(rb, b) == Duration(rb, b)
  {
    PowMonotone(a - 1, b - 1);
    MulMonotone(rb.base, Pow2(a - 1), Pow2(b - 1));
    DurationFits(rb, a);
    DurationFits(rb, b);
  }

  lemma {:induction false} DurationFits(rb: Backoff, count: uint32)
    requires rb.base > 0 && count >= 1 && FitsInt64(rb.base * Pow2(count - 1))
    ensures Duration(rb, count) == Intended(rb, count)
  {
    DurationIsIntendedExactly(rb, count);
  }

  lemma MulMonotone(a: nat, x: nat, y: nat)
    requires x <= y
    ensures 0 <= a * x <= a * y
  {}

  /** Over a run of tolerated failures: the wait after failure `i` is `base` doubled once for
      every failure since its window opened, so it grows inside a window and starts again from
      `base` at each new one. */
  lemma {:induction false} WaitAfterFailure<E>(rb: Backoff, p: Tolerance.Policy, fs: seq<Tolerance.Fail<E>>)
    requires rb.base > 0 && rb.max >= 0 && fs != []
    requires Tolerance.CounterFits(p) && p.window >= 0 && p.max >= 1 && Tolerance.Chronological(fs)
    requires Tolerance.AllTolerated(p, fs)
    requires rb.base * Pow2(p.max - 1) <= INT64_MAX
    ensures var since := |fs| - 1 - Tolerance.Opener(p, fs, |fs| - 1);
            Duration(rb, Tolerance.After(p, fs).count) == Min(rb.base * Pow2(since), rb.max)
  {
    Tolerance.ManagerTracksWindows(p, fs);
    DurationIsMonotone(rb, Tolerance.After(p, fs).count, p.max);
  }
}
