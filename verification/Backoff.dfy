/** The delay arithmetic of the retry loop, in 64-bit nanoseconds. */
module Backoff {
  import opened Prelude
  import opened Int64

  /** The step before jitter: the base shifted left attempt - 1 places in 64 bits, then capped. */
  function CappedStep(base: int, maxDelay: int, attempt: nat): (d: int)
    requires attempt >= 1
    ensures d <= maxDelay
    ensures maxDelay > 0 ==> d > 0
  {
    var d := Wrap64(base * Pow2(attempt - 1));
    if d > maxDelay || d <= 0 then maxDelay else d
  }

  /** The delay, drawn from the upper half of the step; the random draw is any number. */
  function Delay(base: int, maxDelay: int, attempt: nat, draw: nat): (r: int)
    requires attempt >= 1
    ensures 0 <= r <= Max(0, maxDelay)
    ensures base <= 0 || maxDelay <= 0 ==> r == 0
    ensures base > 0 && maxDelay > 0 ==>
              var d := CappedStep(base, maxDelay, attempt);
              0 < d <= maxDelay && d / 2 <= r <= d
  {
    if base <= 0 then 0
    else
      var d := CappedStep(base, maxDelay, attempt);
      if d <= 0 then 0
      else
        var half := d / 2;
        half + draw % (half + 1)
  }

  lemma SmallRemainder(a: nat, b: nat)
    requires a < b
    ensures a % b == a
  {
  }

  /** Every number in the upper half of the step is drawn, and no other. */
  lemma DrawnExactly(base: int, maxDelay: int, attempt: nat, r: int)
    requires base > 0 && maxDelay > 0 && attempt >= 1
    ensures var half := CappedStep(base, maxDelay, attempt) / 2;
            (exists draw: nat :: Delay(base, maxDelay, attempt, draw) == r) <==> half <= r <= 2 * half
  {
    hide CappedStep;
    var d := CappedStep(base, maxDelay, attempt);
    if d / 2 <= r <= 2 * (d / 2) {
      SmallRemainder(r - d / 2, d / 2 + 1);
      assert Delay(base, maxDelay, attempt, r - d / 2) == r;
    }
  }

  /**
   The largest cap for which the doubling of this base is never mistaken: the least
   positive value that any of the shifts 1..k leaves behind after overflowing.
   */
  function SafeCapUpTo(base: int, k: nat): (cap: int) {
    if k == 0 then MAX_INT64
    else
      var cap := SafeCapUpTo(base, k - 1);
      var w := Wrap64(base * Pow2(k));
      if base * Pow2(k) >= TWO_63 && 0 < w < cap then w else cap
  }

  function SafeCap(base: int): int {
    SafeCapUpTo(base, 63)
  }

  lemma {:induction false} SafeCapIsLowerBound(base: int, k: nat, j: nat)
    requires 1 <= j <= k
    requires base * Pow2(j) >= TWO_63 && Wrap64(base * Pow2(j)) > 0
    ensures SafeCapUpTo(base, k) <= Wrap64(base * Pow2(j))
  {
    if j < k {
      SafeCapIsLowerBound(base, k - 1, j);
    }
  }

  lemma {:induction false} SafeCapIsReached(base: int, k: nat) returns (j: nat)
    requires SafeCapUpTo(base, k) < MAX_INT64
    ensures 1 <= j <= k && base * Pow2(j) >= TWO_63
    ensures 0 < Wrap64(base * Pow2(j)) == SafeCapUpTo(base, k)
  {
    if SafeCapUpTo(base, k) == SafeCapUpTo(base, k - 1) {
      j := SafeCapIsReached(base, k - 1);
    } else {
      j := k;
    }
  }

  lemma Stretch(base: int, p: int)
    requires base >= 1 && p >= 0
    ensures base * p >= p
  {
  }

  lemma Grows(base: int, k: nat)
    requires base > 0 && k >= 64
    ensures base * Pow2(k) >= TWO_63
  {
    Pow2Of64();
    Pow2Sum(k - 64, 64);
    var h := Pow2(k - 64);
    assert h * TWO_64 >= TWO_64;
    Stretch(base, Pow2(k));
  }

  /**
   One attempt of at most k shifts, or of shifts past the word: below the safe cap the step is the
   doubled base, or the cap once that is larger.
   */
  lemma StepDoublesUpTo(base: int, maxDelay: int, attempt: nat, k: nat)
    requires 0 < base <= MAX_INT64 && 0 < maxDelay <= SafeCapUpTo(base, k) && maxDelay <= MAX_INT64
    requires 1 <= attempt && (attempt - 1 <= k || attempt - 1 >= 64)
    ensures CappedStep(base, maxDelay, attempt) == Min(base * Pow2(attempt - 1), maxDelay)
  {
    var shift := attempt - 1;
    var x := base * Pow2(shift);
    Stretch(Pow2(shift), base);
    if x >= TWO_63 {
      if shift >= 64 {
        WrapBeyondWord(base, shift);
      } else if Wrap64(x) > 0 {
        SafeCapIsLowerBound(base, k, shift);
      }
    } else {
      assert Wrap64(x) == x;
    }
    if shift >= 64 {
      Grows(base, shift);
    }
  }

  /** Any attempt at all. */
  lemma StepDoubles(base: int, maxDelay: int, attempt: nat)
    requires 0 < base <= MAX_INT64 && 0 < maxDelay <= SafeCap(base) && maxDelay <= MAX_INT64
    requires attempt >= 1
    ensures CappedStep(base, maxDelay, attempt) == Min(base * Pow2(attempt - 1), maxDelay)
  {
    StepDoublesUpTo(base, maxDelay, attempt, 63);
  }

  /**
   The same per policy: of so many attempts a call backs off after each but the last, and the rule
   holds for all of those steps exactly when the cap is safe for the shifts they take.
   */
  lemma DoublingWithin(base: int, maxDelay: int, attempts: nat)
    requires 0 < base <= MAX_INT64 && 0 < maxDelay <= MAX_INT64 && attempts >= 2
    ensures (forall attempt: nat :: 1 <= attempt < attempts ==>
               CappedStep(base, maxDelay, attempt) == Min(base * Pow2(attempt - 1), maxDelay))
            <==> maxDelay <= SafeCapUpTo(base, attempts - 2)
  {
    if maxDelay <= SafeCapUpTo(base, attempts - 2) {
      forall attempt: nat | 1 <= attempt < attempts
        ensures CappedStep(base, maxDelay, attempt) == Min(base * Pow2(attempt - 1), maxDelay)
      {
        StepDoublesUpTo(base, maxDelay, attempt, attempts - 2);
      }
    } else {
      var j := SafeCapIsReached(base, attempts - 2);
      assert CappedStep(base, maxDelay, j + 1) == Wrap64(base * Pow2(j));
      assert Min(base * Pow2(j), maxDelay) == maxDelay;
    }
  }

  /**
   Exactly when the documented rule of doubled steps under a cap holds for every attempt, wrapped
   shifts and shifts past the word included.
   */
  lemma DoublingExactly(base: int, maxDelay: int)
    requires 0 < base <= MAX_INT64 && 0 < maxDelay <= MAX_INT64
    ensures (forall attempt: nat :: attempt >= 1 ==>
               CappedStep(base, maxDelay, attempt) == Min(base * Pow2(attempt - 1), maxDelay))
            <==> maxDelay <= SafeCap(base)
  {
    if maxDelay <= SafeCap(base) {
      forall attempt: nat | attempt >= 1
        ensures CappedStep(base, maxDelay, attempt) == Min(base * Pow2(attempt - 1), maxDelay)
      {
        StepDoubles(base, maxDelay, attempt);
      }
    } else {
      var j := SafeCapIsReached(base, 63);
      assert CappedStep(base, maxDelay, j + 1) == Wrap64(base * Pow2(j));
      assert Min(base * Pow2(j), maxDelay) == maxDelay;
    }
  }

  lemma Nonnegative(a: int, b: int)
    requires a >= 0 && b >= 0
    ensures a * b >= 0
  {
  }

  lemma Cancel(base: int, a: int, b: int)
    requires base > 0 && base * a < base * b
    ensures a < b
  {
    if b <= a {
      Nonnegative(base, a - b);
    }
  }

  lemma Positive(q: int, p: int)
    requires p > 0 && q * p > 0
    ensures q * p >= p
  {
    if q <= 0 {
      Nonnegative(-q, p);
    }
  }

  /** A product below 2^63 is always safe: what overflow leaves behind is too large to slip under the cap. */
  lemma {:induction false} SmallProductIsSafe(base: int, maxDelay: int, k: nat)
    requires 0 < base && 0 < maxDelay && base * maxDelay < TWO_63 && k <= 64
    ensures maxDelay <= SafeCapUpTo(base, k)
  {
    if k == 0 {
      Stretch(base, maxDelay);
    } else {
      SmallProductIsSafe(base, maxDelay, k - 1);
      var p := Pow2(k);
      if base * p >= TWO_63 && Wrap64(base * p) > 0 {
        Cancel(base, maxDelay, p);
        var q := WrapKeepsFactor(base, k);
        Positive(q, p);
      }
    }
  }

  /** The shift-overflow theorem for every attempt. */
  lemma BackoffTheorem(base: int, maxDelay: int, attempt: nat, draw: nat)
    requires 0 < base && 0 < maxDelay && base * maxDelay < TWO_63 && attempt >= 1
    ensures CappedStep(base, maxDelay, attempt) == Min(base * Pow2(attempt - 1), maxDelay)
    ensures var step := Min(base * Pow2(attempt - 1), maxDelay);
            step / 2 <= Delay(base, maxDelay, attempt, draw) <= step
  {
    SmallProductIsSafe(base, maxDelay, 63);
    Stretch(base, maxDelay);
    Stretch(maxDelay, base);
    StepDoubles(base, maxDelay, attempt);
  }

  /** A base of 2^32 + 1 ns under a five second cap: attempt 33 waits for less than the base. */
  lemma DoublingCanFail()
    ensures var base, cap := 0x1_0000_0001, 5_000_000_000;
            CappedStep(base, cap, 33) == 0x1_0000_0000 < base < cap
            && SafeCap(base) < cap
  {
    var base, k := 0x1_0000_0001, 32;
    Pow2Of32();
    assert base * Pow2(k) == TWO_64 + 0x1_0000_0000;
    SafeCapIsLowerBound(base, 63, k);
  }

  const SECOND: int := 1_000_000_000

  /** Whole seconds as a duration; the multiplication is a 64-bit one. */
  function Seconds(s: int): int {
    Wrap64(s * SECOND)
  }
}
