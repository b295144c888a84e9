/**
 Go's int64: 64-bit two's complement. Arithmetic is done on unbounded integers and
 brought back with Wrap64, which is what the hardware does.
 */
module Int64 {

  const TWO_63: int := 0x8000_0000_0000_0000
  const TWO_64: int := 0x1_0000_0000_0000_0000
  const MAX_INT64: int := TWO_63 - 1
  const MIN_INT64: int := -TWO_63

  predicate IsInt64(x: int) {
    MIN_INT64 <= x <= MAX_INT64
  }

  function Wrap64(x: int): (w: int)
    ensures IsInt64(w)
    ensures (x - w) % TWO_64 == 0
    ensures IsInt64(x) ==> w == x
  {
    var m := x % TWO_64;
    if m >= TWO_63 then m - TWO_64 else m
  }

  function Pow2(k: nat): (p: int)
    ensures p >= 1
  {
    if k == 0 then 1 else 2 * Pow2(k - 1)
  }

  lemma {:induction false} Pow2Sum(j: nat, k: nat)
    ensures Pow2(j + k) == Pow2(j) * Pow2(k)
  {
    if j > 0 {
      Pow2Sum(j - 1, k);
      assert Pow2(j + k) == 2 * Pow2(j - 1 + k);
    }
  }

  lemma Pow2Of32()
    ensures Pow2(32) == 0x1_0000_0000
  {
    assert Pow2(8) == 0x100;
    Pow2Sum(8, 8);
    Pow2Sum(16, 16);
  }

  lemma Pow2Of64()
    ensures Pow2(64) == TWO_64
  {
    Pow2Of32();
    Pow2Sum(32, 32);
  }

  lemma {:induction false} Pow2Grows(j: nat, k: nat)
    requires j <= k
    ensures Pow2(j) <= Pow2(k)
  {
    if j < k {
      Pow2Grows(j, k - 1);
    }
  }

  lemma Pow2Next(k: nat)
    ensures Pow2(k + 1) == 2 * Pow2(k)
  {
  }

  /** The floats reach further than 64 bits. */
  lemma FloatsReach()
    ensures Pow2(1024) - Pow2(970) >= TWO_64
  {
    hide Pow2;
    Pow2Of64();
    Pow2Next(1023);
    Pow2Grows(970, 1023);
    Pow2Grows(64, 1023);
  }

  lemma FactorOut(x: int, d: int, p: int, q: int)
    ensures x * p - d * (q * p) == (x - d * q) * p
  {
  }

  /** Wrapping subtracts a whole number of words. */
  lemma WrapSubtractsWords(x: int) returns (d: int)
    ensures Wrap64(x) == x - d * TWO_64
  {
    d := (x - Wrap64(x)) / TWO_64;
  }

  /** A multiple of 2^k stays a multiple of 2^k when it wraps, for every shift inside the word. */
  lemma WrapKeepsFactor(x: int, k: nat) returns (q: int)
    requires k <= 64
    ensures Wrap64(x * Pow2(k)) == q * Pow2(k)
  {
    var p, r := Pow2(k), Pow2(64 - k);
    var d := WrapSubtractsWords(x * p);
    assert r * p == TWO_64 by {
      Pow2Of64();
      Pow2Sum(64 - k, k);
    }
    FactorOut(x, d, p, r);
    q := x - d * r;
  }

  lemma WholeWords(x: int, h: int)
    ensures Wrap64(x * (h * TWO_64)) == 0
  {
    assert x * (h * TWO_64) == (x * h) * TWO_64;
    var y := x * h;
    assert (y * TWO_64) % TWO_64 == 0;
  }

  /** Shifting by the word size or more leaves nothing. */
  lemma WrapBeyondWord(x: int, k: nat)
    requires k >= 64
    ensures Wrap64(x * Pow2(k)) == 0
  {
    var h := Pow2(k - 64);
    assert Pow2(k) == h * TWO_64 by {
      Pow2Of64();
      Pow2Sum(k - 64, 64);
    }
    WholeWords(x, h);
  }
}
