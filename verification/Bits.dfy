/** JavaScript's 32-bit operators on unsigned values, bit by bit, and the arithmetic they amount to. */
module Bits {

  function Pow2(n: nat): (p: nat)
    ensures p >= 1
  {
    if n == 0 then 1 else 2 * Pow2(n - 1)
  }

  function And(a: nat, b: nat): nat {
    if a == 0 || b == 0 then 0 else (a % 2) * (b % 2) + 2 * And(a / 2, b / 2)
  }

  function Or(a: nat, b: nat): nat
    decreases a + b
  {
    if a == 0 then b
    else if b == 0 then a
    else (if a % 2 == 1 || b % 2 == 1 then 1 else 0) + 2 * Or(a / 2, b / 2)
  }

  /** `(a << n) >>> 0`. */
  function ShiftLeft(a: nat, n: nat): nat { (a * Pow2(n)) % 0x1_0000_0000 }

  /** `a >> n` of a value below 2^31. */
  function ShiftRight(a: nat, n: nat): nat { Quotient(a, Pow2(n)) }

  function Quotient(a: nat, d: nat): nat
    requires d > 0
  {
    a / d
  }

  lemma Doubled(x: nat, k: nat)
    requires k > 0
    ensures x * Pow2(k) == 2 * (x * Pow2(k - 1))
  {}

  /** Or-ing bits into zeros adds them. */
  lemma {:induction false} OrBelow(a: nat, b: nat, k: nat)
    requires b < Pow2(k)
    ensures Or(a * Pow2(k), b) == a * Pow2(k) + b
    decreases k
  {
    if k > 0 && a > 0 && b > 0 {
      Doubled(a, k);
      var x := a * Pow2(k - 1);
      OrBelow(a, b / 2, k - 1);
      assert (2 * x) / 2 == x && (2 * x) % 2 == 0;
      assert Or(2 * x, b) == b % 2 + 2 * Or(x, b / 2);
    } else if a == 0 {
      assert a * Pow2(k) == 0;
    }
  }

  lemma AndTwice(v: nat, m: nat)
    ensures And(v, 2 * m) == 2 * And(v / 2, m)
    ensures And(v, 2 * m + 1) == v % 2 + 2 * And(v / 2, m)
  {
    assert (2 * m) / 2 == m && (2 * m) % 2 == 0 && (2 * m + 1) / 2 == m && (2 * m + 1) % 2 == 1;
  }

  /** Masking the low bits is the remainder. */
  lemma {:induction false} AndLow(v: nat, k: nat)
    ensures And(v, Pow2(k) - 1) == v % Pow2(k)
    decreases k
  {
    if k > 0 {
      AndLow(v / 2, k - 1);
      AndOdd(v, Pow2(k - 1), Pow2(k));
    }
  }

  lemma AndOdd(v: nat, m: nat, d: nat)
    requires m > 0 && d == 2 * m && And(v / 2, m - 1) == (v / 2) % m
    ensures And(v, d - 1) == v % d
  {
    AndTwice(v, m - 1);
    Halves(v, m);
  }

  lemma Halves(v: nat, m: nat)
    requires m > 0
    ensures v % (2 * m) == v % 2 + 2 * ((v / 2) % m)
  {
    var h := v / 2;
    var q, r := h / m, h % m;
    assert h == m * q + r;
    assert v == 2 * (m * q + r) + v % 2;
    assert v == (2 * m) * q + (2 * r + v % 2);
    Remainder(v, 2 * m, q, 2 * r + v % 2);
  }

  lemma {:induction false} NextMultiple(d: nat, x: nat, y: nat)
    requires x < y
    ensures d * x + d <= d * y
    decreases y - x
  {
    assert d * (x + 1) == d * x + d;
    if x + 1 < y { NextMultiple(d, x + 1, y); }
  }

  lemma Remainder(v: nat, d: nat, q: nat, r: nat)
    requires v == d * q + r && r < d
    ensures v % d == r && v / d == q
  {
    if v / d > q {
      NextMultiple(d, q, v / d);
      assert false;
    } else if v / d < q {
      NextMultiple(d, v / d, q);
      assert false;
    }
  }

  /** A mask of `j` ones above `k` zeros. */
  function HighMask(j: nat, k: nat): nat { if k == 0 then Pow2(j) - 1 else 2 * HighMask(j, k - 1) }

  lemma {:induction false} HighMaskIs(j: nat, k: nat)
    ensures HighMask(j, k) == (Pow2(j) - 1) * Pow2(k)
  {
    if k > 0 {
      HighMaskIs(j, k - 1);
      Doubled(Pow2(j) - 1, k);
    }
  }

  lemma RoundDown(v: nat, m: nat, d: nat, masked: nat)
    requires m > 0 && d == 2 * m && masked == v / 2 - (v / 2) % m
    ensures 2 * masked == v - v % d
  {
    Halves(v, m);
  }

  lemma HalfFits(v: nat, n: nat)
    requires n > 0 && v < Pow2(n)
    ensures v / 2 < Pow2(n - 1)
  {}

  lemma {:induction false} AllOnes(v: nat, j: nat)
    requires v < Pow2(j)
    ensures And(v, Pow2(j) - 1) == v
    decreases j
  {
    if j > 0 {
      HalfFits(v, j);
      AllOnes(v / 2, j - 1);
      AndTwice(v, Pow2(j - 1) - 1);
    }
  }

  /** Masking the high bits rounds down to a multiple. */
  lemma {:induction false} AndHigh(v: nat, j: nat, k: nat)
    requires v < Pow2(j + k)
    ensures And(v, HighMask(j, k)) == v - v % Pow2(k)
    decreases k
  {
    if k == 0 {
      AllOnes(v, j);
    } else {
      HalfFits(v, j + k);
      AndHigh(v / 2, j, k - 1);
      AndTwice(v, HighMask(j, k - 1));
      RoundDown(v, Pow2(k - 1), Pow2(k), And(v / 2, HighMask(j, k - 1)));
    }
  }
}
