/** Powers, quotients and remainders: what the bit-level encodings, the variable-length integers and the
    base-257 ranks of keys need, each fact stated once. */
module Arith {

  function Pow(b: nat, n: nat): (r: nat)
    ensures b > 0 ==> r > 0
  {
    if n == 0 then 1 else b * Pow(b, n - 1)
  }

  function Pow2(n: nat): (r: nat)
    ensures r > 0
  {
    if n == 0 then 1 else 2 * Pow2(n - 1)
  }

  lemma {:induction false} Pow2Adds(a: nat, b: nat)
    ensures Pow2(a + b) == Pow2(a) * Pow2(b)
  {
    if a > 0 {
      Pow2Adds(a - 1, b);
    }
  }

  lemma {:induction false} Pow2Grows(a: nat, b: nat)
    requires a <= b
    ensures Pow2(a) <= Pow2(b)
  {
    if a < b {
      Pow2Grows(a, b - 1);
    }
  }

  lemma {:induction false} MulGap(m: nat, i: nat, j: nat)
    requires i < j
    ensures m * i + m <= m * j
  {
    assert m * j == m * (j - 1) + m;
    if i + 1 < j {
      MulGap(m, i, j - 1);
    }
  }

  /** A number is determined by its quotient and remainder. */
  lemma {:induction false} DivModUnique(h: nat, m: nat, w: nat, v: nat)
    requires h == m * w + v && v < m
    ensures h / m == w && h % m == v
  {
    var w2 := h / m;
    assert h == m * w2 + h % m;
    if w < w2 {
      MulGap(m, w, w2);
    } else if w2 < w {
      MulGap(m, w2, w);
    }
  }

  /** Two digits, regrouped. */
  lemma {:induction false} Regroup(a: nat, b: nat, w: nat, y: nat, v: nat)
    ensures a * (b * w + y) + v == (a * b) * w + (a * y + v)
  {
    assert a * (b * w + y) == a * (b * w) + a * y;
    assert a * (b * w) == (a * b) * w;
  }

  /** Reducing modulo `a * b` keeps the remainder by `a` and the next digit in base `b`. */
  lemma {:induction false} ModSplits(h: nat, a: nat, b: nat)
    requires a > 0 && b > 0
    ensures a * b > 0 && h % (a * b) == a * (h / a % b) + h % a
  {
    DigitsOf(h, a, b, h / a, h % a, h / a / b, h / a % b);
  }

  lemma {:induction false} DigitsOf(h: nat, a: nat, b: nat, u: nat, v: nat, w: nat, y: nat)
    requires v < a && y < b && h == a * u + v && u == b * w + y
    ensures a * b > 0 && h % (a * b) == a * y + v
  {
    Regroup(a, b, w, y, v);
    MulGap(a, y, b);
    DivModUnique(h, a * b, w, a * y + v);
  }

  const TWO_63: nat := 0x8000_0000_0000_0000
  const TWO_64: nat := 0x1_0000_0000_0000_0000

  lemma {:induction false} Pow2Doubles(m: nat, n: nat)
    requires n == 2 * m + 1
    ensures Pow2(n) == 2 * (Pow2(m) * Pow2(m))
  {
    Pow2Adds(m, m);
  }

  lemma {:induction false} WordSizes(a: nat, b: nat)
    requires a == 63 && b == a + 1
    ensures Pow2(a) == TWO_63 && Pow2(b) == TWO_64
  {
    var a1, a2, a3, a4, a5 := a / 2, a / 4, a / 8, a / 16, a / 32;
    assert a5 == 1;
    Pow2Doubles(a5, a4);
    assert Pow2(a4) == 8;
    Pow2Doubles(a4, a3);
    assert Pow2(a3) == 128;
    Pow2Doubles(a3, a2);
    assert Pow2(a2) == 0x8000;
    Pow2Doubles(a2, a1);
    assert Pow2(a1) == 0x8000_0000;
    Pow2Doubles(a1, a);
  }
}
