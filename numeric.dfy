/**
 * Facts about Euclidean division and multiplication shared by the shape and tiling arithmetic.
 * The solver does not find them on its own once several products are in play.
 */
module Numeric {

  /** The defining equation of Euclidean division. */
  lemma DivMod(x: int, n: int)
    requires n > 0
    ensures (x / n) * n + x % n == x && 0 <= x % n < n
  {
  }

  lemma MulSub(a: int, b: int, n: int)
    ensures (a - b) * n == a * n - b * n
  {
  }

  lemma MulAtLeast(a: int, n: int)
    requires a >= 1 && n > 0
    ensures a * n >= n
  {
  }

  /** Two Euclidean representations of the same number by the same divisor are the same one. */
  lemma DivModUnique(x: int, n: int, q: int, r: int)
    requires n > 0 && x == q * n + r && 0 <= r < n
    ensures x / n == q && x % n == r
  {
    var q2 := x / n;
    DivMod(x, n);
    MulSub(q, q2, n);
    if q - q2 >= 1 {
      MulAtLeast(q - q2, n);
      assert false;
    } else if q - q2 <= -1 {
      MulAtLeast(q2 - q, n);
      MulSub(q2, q, n);
      assert false;
    }
  }

  /** Adding the divisor does not change the remainder. */
  lemma ModPlusDivisor(e: int, s: int)
    requires s > 0
    ensures (e + s) % s == e % s
  {
    DivMod(e, s);
    MulSub(e / s + 1, 1, s);
    DivModUnique(e + s, s, e / s + 1, e % s);
  }

  /** A multiple of `n` divides back exactly. */
  lemma MulDivCancel(i: int, n: int)
    requires n > 0
    ensures (i * n) / n == i && (i * n) % n == 0
  {
    DivModUnique(i * n, n, i, 0);
  }

  /** A quotient below a bound when the dividend is below the bound's multiple. */
  lemma DivBelow(x: int, n: int, p: int)
    requires n > 0 && 0 <= x < p * n
    ensures 0 <= x / n < p
  {
  }

  /** 2 to the power `n`: the range sizes of `n`-bit integers. */
  function Pow2(n: nat): (r: nat)
    ensures r >= 1
  {
    if n == 0 then 1 else 2 * Pow2(n - 1)
  }

  lemma {:induction false} Pow2Monotonic(a: nat, b: nat)
    requires a <= b
    ensures Pow2(a) <= Pow2(b)
    decreases b
  {
    if a < b {
      Pow2Monotonic(a, b - 1);
    }
  }
}
