/** The delay before a retry: a 64-bit shift that wraps, a clamp, and jitter
    (internal/rates/resilient/resilient.go:121-143). */
module Backoff {
  const TWO_TO_63: int := 0x8000_0000_0000_0000
  const TWO_TO_64: int := 0x1_0000_0000_0000_0000

  /** The value a 64-bit signed register holds after computing `x`. */
  function Wrap(x: int): (r: int)
    ensures -TWO_TO_63 <= r < TWO_TO_63
    ensures -TWO_TO_63 <= x < TWO_TO_63 ==> r == x
  {
    (x + TWO_TO_63) % TWO_TO_64 - TWO_TO_63
  }

  function Pow2(n: nat): (r: nat)
    ensures r >= 1
  {
    if n == 0 then 1 else 2 * Pow2(n - 1)
  }

  function ShiftLeft(d: int, count: nat): int {
    Wrap(d * Pow2(count))
  }

  function Clamped(base: int, max: int, attempt: nat): int
    requires attempt >= 1
  {
    var d := ShiftLeft(base, attempt - 1);
    if d <= 0 || d > max then max else d
  }

  /** Jitter of a fifth either way, never above the cap; the draw is below twice the fifth. */
  function Jittered(d0: int, max: int, draw: nat): int
    requires d0 > 0
  {
    var jitter := d0 / 5;
    var d := if jitter > 0 then Wrap(d0 + (draw % (2 * jitter) - jitter)) else d0;
    if d > max then max else d
  }

  function DelayFor(base: int, max: int, attempt: nat, retryAfter: int, draw: nat): int
    requires attempt >= 1 && max > 0
  {
    if retryAfter > 0 then (if retryAfter > max then max else retryAfter)
    else Jittered(Clamped(base, max, attempt), max, draw)
  }

  // ---------- the wrapping shift is the ideal one ----------

  lemma {:induction false} Pow2Add(m: nat, n: nat)
    ensures Pow2(m + n) == Pow2(m) * Pow2(n)
  {
    if m > 0 {
      Pow2Add(m - 1, n);
      assert Pow2(m + n) == 2 * Pow2(m - 1 + n);
      assert 2 * (Pow2(m - 1) * Pow2(n)) == (2 * Pow2(m - 1)) * Pow2(n);
    }
  }

  lemma Pow2Next(n: nat)
    ensures Pow2(n + 1) == 2 * Pow2(n)
  {
  }

  lemma Pow2Of64()
    ensures Pow2(64) == TWO_TO_64 && Pow2(63) == TWO_TO_63 && Pow2(62) == TWO_TO_63 / 2
  {
    assert Pow2(4) == 16;
    hide Pow2;
    Pow2Next(62);
    Pow2Next(63);
    Pow2Add(4, 4);
    Pow2Add(8, 8);
    Pow2Add(16, 16);
    Pow2Add(32, 32);
  }

  lemma Scale(p: int, u: int)
    requires p >= 1 && u >= 1
    ensures p * u >= p
  {
  }

  lemma Monotone(p: int, a: int, b: int)
    requires p >= 1
    ensures a <= b ==> p * a <= p * b
    ensures a < b ==> p * a < p * b
  {
  }

  /** The bits of `base` that a shift by `k` < 64 does not push out. */
  function Kept(base: int, k: nat): (low: int)
    requires k < 64
    ensures 0 <= low < Pow2(64 - k)
  {
    base % Pow2(64 - k)
  }

  /** A 64-bit shift keeps the low bits only, and reads them as a signed number. */
  lemma ShiftExactly(base: int, k: nat)
    ensures k >= 64 ==> ShiftLeft(base, k) == 0
    ensures k < 64 ==>
      var r := Kept(base, k) * Pow2(k);
      0 <= r < TWO_TO_64 && ShiftLeft(base, k) == if r < TWO_TO_63 then r else r - TWO_TO_64
  {
    hide Pow2, Kept;
    Pow2Of64();
    if k >= 64 {
      Pow2Add(64, k - 64);
      var rest := Pow2(k - 64);
      Regroup(base, TWO_TO_64, 0, rest);
      Reorder(base, TWO_TO_64, rest);
      WrapMultiple(base * rest, 0);
    } else {
      Pow2Add(64 - k, k);
      var low, p, m := Kept(base, k), Pow2(k), Pow2(64 - k);
      Monotone(p, 0, low);
      Monotone(p, low, m);
      assert m * p == p * m && low * p == p * low;
      KeptSplit(base, k);
      var q := base / m;
      Regroup(q, m, low, p);
      WrapMultiple(q, low * p);
    }
  }

  lemma Regroup(q: int, m: int, low: int, p: int)
    ensures (q * m + low) * p == q * (m * p) + low * p
  {
  }

  lemma Reorder(q: int, m: int, p: int)
    ensures q * (m * p) == (q * p) * m
  {
  }

  lemma KeptSplit(base: int, k: nat)
    requires k < 64
    ensures base == (base / Pow2(64 - k)) * Pow2(64 - k) + Kept(base, k)
  {
  }

  lemma WrapMultiple(q: int, r: int)
    requires 0 <= r < TWO_TO_64
    ensures Wrap(q * TWO_TO_64 + r) == if r < TWO_TO_63 then r else r - TWO_TO_64
  {
  }

  /** A shifted value that overflowed is zero, negative, or at least the power it was shifted by. */
  lemma OverflowIsCoarse(base: int, k: nat)
    ensures var r := ShiftLeft(base, k); r <= 0 || r >= Pow2(k)
  {
    hide Pow2, Kept, ShiftLeft;
    ShiftExactly(base, k);
    if k < 64 && Kept(base, k) >= 1 {
      Scale(Pow2(k), Kept(base, k));
      assert Pow2(k) * Kept(base, k) == Kept(base, k) * Pow2(k);
    }
  }

  /** The shift by `k` loses nothing, or what it leaves behind is clamped to the cap anyway. */
  predicate Harmless(base: int, max: int, k: nat) {
    k < 64 && base >= Pow2(63 - k) ==>
      var low := Kept(base, k);
      low == 0 || low >= Pow2(63 - k) || low * Pow2(k) >= max
  }

  function Ideal(base: int, max: int, attempt: nat): int
    requires attempt >= 1
  {
    var d := base * Pow2(attempt - 1);
    if d <= max then d else max
  }

  /** The clamped delay is min(BaseDelay * 2^(attempt - 1), MaxDelay) exactly when the bits kept by
      the shift are none, show a negative number, or still reach the cap. */
  lemma BackoffExactly(base: int, max: int, attempt: nat)
    requires 0 < base < TWO_TO_63 && 0 < max < TWO_TO_63 && attempt >= 1
    ensures Clamped(base, max, attempt) == Ideal(base, max, attempt) <==> Harmless(base, max, attempt - 1)
  {
    hide Pow2, Kept, ShiftLeft;
    var k := attempt - 1;
    ShiftExactly(base, k);
    if k >= 64 {
      FarShift(base, k);
    } else {
      NearShift(base, k);
    }
  }

  lemma FarShift(base: int, k: nat)
    requires base > 0 && k >= 64
    ensures base * Pow2(k) >= TWO_TO_63
  {
    hide Pow2;
    Pow2Of64();
    Pow2Add(64, k - 64);
    Scale(TWO_TO_64, Pow2(k - 64));
    Scale(Pow2(k), base);
    assert Pow2(k) * base == base * Pow2(k);
  }

  /** Below 64, a base of fewer than 63 - k bits is shifted whole; a larger one overflows, and what is
      kept of it looks positive exactly if it has fewer than 63 - k bits itself. */
  lemma NearShift(base: int, k: nat)
    requires base > 0 && k < 64
    ensures var p, half, low := Pow2(k), Pow2(63 - k), Kept(base, k);
      && (base < half ==> low == base && base * p < TWO_TO_63)
      && (base >= half ==> base * p >= TWO_TO_63)
      && (low * p < TWO_TO_63 <==> low < half) && (low * p == 0 <==> low == 0)
  {
    hide Pow2, Kept;
    Pow2Of64();
    Pow2Add(63 - k, k);
    var p, half, low := Pow2(k), Pow2(63 - k), Kept(base, k);
    assert p * half == half * p && p * base == base * p && p * low == low * p;
    Monotone(p, base, half);
    Monotone(p, half, base);
    Monotone(p, low, half);
    Monotone(p, half, low);
    Monotone(p, 0, low);
    if base < half {
      FitsWhole(base, k);
    }
  }

  lemma FitsWhole(base: int, k: nat)
    requires k < 64 && 0 <= base < Pow2(63 - k)
    ensures Kept(base, k) == base
  {
    Pow2Add(1, 63 - k);
    SmallRemainder(base, Pow2(64 - k));
  }

  /** As long as BaseDelay * MaxDelay fits in 63 bits, every attempt gets the ideal delay. */
  lemma BackoffIsIdeal(base: int, max: int, attempt: nat)
    requires base > 0 && max > 0 && base * max < TWO_TO_63 && attempt >= 1
    ensures Clamped(base, max, attempt) == Ideal(base, max, attempt)
  {
    hide Pow2, Kept, Ideal, Clamped;
    Scale(base, max);
    Scale(max, base);
    assert max * base == base * max;
    BackoffExactly(base, max, attempt);
    var k := attempt - 1;
    if k < 64 && base >= Pow2(63 - k) && Kept(base, k) > 0 {
      Pow2Of64();
      Pow2Add(63 - k, k);
      var p, half := Pow2(k), Pow2(63 - k);
      assert half * p == TWO_TO_63;
      Monotone(p, half, base);
      assert p * half == half * p && p * base == base * p;
      if max >= p {
        Monotone(base, p, max);
        assert false;
      }
      Scale(p, Kept(base, k));
      assert p * Kept(base, k) == Kept(base, k) * p;
    }
  }

  /** The service's default delays, half a second and ten seconds, satisfy the bound. */
  lemma DefaultsAreIdeal(attempt: nat)
    requires attempt >= 1
    ensures var base, max := 500_000_000, 10_000_000_000;
      Clamped(base, max, attempt) == Ideal(base, max, attempt)
  {
    BackoffIsIdeal(500_000_000, 10_000_000_000, attempt);
  }

  /** Options that fail the exact condition: here the third attempt would wait 4 ns, not the cap. */
  lemma WrapCanShorten()
    ensures var base, max := TWO_TO_63 / 2 + 1, 1_000_000_000;
      Clamped(base, max, 3) == 4 && Ideal(base, max, 3) == max && !Harmless(base, max, 2)
  {
    var base, max := TWO_TO_63 / 2 + 1, 1_000_000_000;
    assert Pow2(2) == 4;
    assert Clamped(base, max, 3) == 4;
    BackoffExactly(base, max, 3);
  }

  /** Options beyond the simple bound that are ideal all the same, at every attempt. */
  lemma BoundIsNotNeeded(attempt: nat)
    requires attempt >= 1
    ensures var base, max := TWO_TO_63 / 2, 1_000_000_000;
      base * max >= TWO_TO_63 && Clamped(base, max, attempt) == Ideal(base, max, attempt)
  {
    hide Clamped, Ideal, Harmless, Pow2;
    BackoffExactly(TWO_TO_63 / 2, 1_000_000_000, attempt);
    HalfIsHarmless(1_000_000_000, attempt - 1);
  }

  lemma HalfIsHarmless(max: int, k: nat)
    ensures Harmless(TWO_TO_63 / 2, max, k)
  {
    hide Pow2;
    Pow2Of64();
    var base := Pow2(62);
    if k == 1 {
      SmallRemainder(base, Pow2(63));
    } else if 2 <= k < 64 {
      Pow2Add(k - 2, 64 - k);
      MultipleRemainder(Pow2(k - 2), Pow2(64 - k));
    }
  }

  lemma MultipleRemainder(a: int, m: int)
    requires m > 0
    ensures (a * m) % m == 0
  {
    var x := a * m;
    var gap := a - x / m;
    assert gap * m == x % m by {
      assert x == (x / m) * m + x % m;
    }
    if gap >= 1 {
      Scale(m, gap);
    } else if gap <= -1 {
      Scale(m, -gap);
    }
  }

  // ---------- jitter ----------

  predicate InJitterRange(d0: int, max: int, d: int) {
    var jitter := d0 / 5;
    if jitter == 0 then d == d0
    else d0 - jitter <= d <= (if d0 + jitter - 1 <= max then d0 + jitter - 1 else max)
  }

  /** The delay keeps within a fifth of the clamped value and below the cap for every draw, exactly
      when the widest sum fits in 63 bits. */
  lemma JitterRange(d0: int, max: int)
    requires 0 < d0 <= max < TWO_TO_63
    ensures (forall draw: nat :: InJitterRange(d0, max, Jittered(d0, max, draw)))
      <==> d0 / 5 == 0 || d0 + d0 / 5 - 1 < TWO_TO_63
  {
    var jitter := d0 / 5;
    if jitter > 0 {
      if d0 + jitter - 1 < TWO_TO_63 {
        forall draw: nat ensures InJitterRange(d0, max, Jittered(d0, max, draw)) {
          assert 0 <= draw % (2 * jitter) < 2 * jitter;
        }
      } else {
        var draw := 2 * jitter - 1;
        SmallRemainder(draw, 2 * jitter);
        assert Jittered(d0, max, draw) < 0;
        assert !InJitterRange(d0, max, Jittered(d0, max, draw));
      }
    }
  }

  lemma SmallRemainder(x: int, n: int)
    requires 0 <= x < n
    ensures x % n == x
  {
  }

  /** Every value of that range is drawn by some random number. */
  lemma JitterReaches(d0: int, max: int, d: int) returns (draw: nat)
    requires 0 < d0 <= max < TWO_TO_63 && (d0 / 5 == 0 || d0 + d0 / 5 - 1 < TWO_TO_63)
    requires InJitterRange(d0, max, d)
    ensures Jittered(d0, max, draw) == d
  {
    var jitter := d0 / 5;
    if jitter == 0 {
      draw := 0;
    } else {
      draw := d - d0 + jitter;
      SmallRemainder(draw, 2 * jitter);
    }
  }

  /** The whole delay: a positive Retry-After wins, capped; otherwise the ideal backoff, jittered. */
  lemma DelayExact(base: int, max: int, attempt: nat, retryAfter: int, draw: nat)
    requires 0 < base < TWO_TO_63 && 0 < max && max + max / 5 < TWO_TO_63 && attempt >= 1
    requires Harmless(base, max, attempt - 1)
    ensures var d, ideal := DelayFor(base, max, attempt, retryAfter, draw), Ideal(base, max, attempt);
      && 0 < d <= max
      && (retryAfter > 0 ==> d == if retryAfter <= max then retryAfter else max)
      && (retryAfter <= 0 ==> InJitterRange(ideal, max, d))
  {
    hide Harmless;
    BackoffExactly(base, max, attempt);
    Scale(base, Pow2(attempt - 1));
    var d0 := Clamped(base, max, attempt);
    JitterRange(d0, max);
    if retryAfter <= 0 {
      assert InJitterRange(d0, max, Jittered(d0, max, draw));
    }
  }
}
