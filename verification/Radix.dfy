/** Integer powers, radix digits and the 32-bit arithmetic the block layers use. */
module Radix {

  const TWO32: nat := 0x1_0000_0000

  /** An unsigned 32-bit machine word. */
  type Word = w: nat | w < TWO32

  function Pow(b: nat, e: nat): nat {
    if e == 0 then 1 else b * Pow(b, e - 1)
  }

  lemma {:induction false} PowPositive(b: nat, e: nat)
    requires b > 0
    ensures Pow(b, e) > 0
  {
    if e > 0 { PowPositive(b, e - 1); }
  }

  lemma {:induction false} PowAdd(b: nat, x: nat, y: nat)
    ensures Pow(b, x + y) == Pow(b, x) * Pow(b, y)
  {
    if x > 0 {
      PowAdd(b, x - 1, y);
      assert b * (Pow(b, x - 1) * Pow(b, y)) == (b * Pow(b, x - 1)) * Pow(b, y);
    }
  }

  /** (b^k)^n == b^(n*k) */
  lemma {:induction false} PowPow(b: nat, k: nat, n: nat)
    ensures Pow(Pow(b, k), n) == Pow(b, n * k)
  {
    if n > 0 {
      PowPow(b, k, n - 1);
      PowAdd(b, k, (n - 1) * k);
      assert k + (n - 1) * k == n * k;
    } else {
      assert n * k == 0;
    }
  }

  lemma {:induction false} PowMonotone(b: nat, x: nat, y: nat)
    requires b > 0 && x <= y
    ensures Pow(b, x) <= Pow(b, y)
    decreases y
  {
    if x < y {
      PowMonotone(b, x, y - 1);
      MulMonotone(Pow(b, y - 1), 1, b);
    }
  }

  lemma Pow2Of32()
    ensures Pow(2, 32) == TWO32
  {
    assert Pow(2, 8) == 256;
    PowAdd(2, 8, 8);
    PowAdd(2, 16, 16);
  }

  lemma MulMonotone(m: nat, x: int, y: int)
    requires x <= y
    ensures m * x <= m * y
  {
  }

  /** Euclidean division is determined by its defining equation. */
  lemma QuotientUnique(x: nat, m: nat, q: nat, r: nat)
    requires m > 0 && r < m && x == m * q + r
    ensures x / m == q && x % m == r
  {
    Euclid(m, x / m, x % m, q, r);
  }

  lemma Euclid(m: nat, p: nat, s: nat, q: nat, r: nat)
    requires s < m && r < m && m * p + s == m * q + r
    ensures p == q && s == r
  {
    assert p <= q by {
      if p > q { MulMonotone(m, q + 1, p); }
    }
    assert q <= p by {
      if q > p { MulMonotone(m, p + 1, q); }
    }
  }

  /** Dividing in two stages: x / (a*b) == (x / a) / b. */
  lemma DivTwice(x: nat, a: nat, b: nat)
    requires a > 0 && b > 0
    ensures a * b > 0
    ensures x / (a * b) == (x / a) / b
  {
    var q := x / a;
    TwoStage(x, a, b, q, x % a, q / b, q % b);
  }

  lemma TwoStage(x: nat, a: nat, b: nat, q: nat, r: nat, p: nat, s: nat)
    requires a > 0 && b > 0 && r < a && s < b
    requires x == a * q + r && q == b * p + s
    ensures a * b > 0 && x / (a * b) == p
  {
    assert a * b > 0;
    MulMonotone(a, s, b - 1);
    assert a * (b * p + s) == (a * b) * p + a * s;
    QuotientUnique(x, a * b, p, a * s + r);
  }

  /** The child at digit j of the node with index idx. */
  function Kid(r: nat, idx: nat, j: nat): nat {
    idx * r + j
  }

  function Parent(r: nat, idx: nat): nat
    requires r > 0
  {
    QuotientNat(idx, r);
    idx / r
  }

  function LastDigit(r: nat, idx: nat): (j: nat)
    requires r > 0
    ensures j < r
  {
    idx % r
  }

  lemma QuotientNat(x: nat, m: nat)
    requires m > 0
    ensures x / m >= 0
  {
    var q, e := x / m, x % m;
    assert x == m * q + e;
    if q < 0 { MulMonotone(m, q, -1); }
  }

  lemma KidDigits(r: nat, idx: nat, j: nat)
    requires j < r
    ensures Kid(r, idx, j) / r == idx && Kid(r, idx, j) % r == j
  {
    QuotientUnique(Kid(r, idx, j), r, idx, j);
  }

  lemma KidOfDigits(r: nat, x: nat)
    requires r > 0
    ensures x == Kid(r, x / r, x % r)
  {
  }

  /** Index, at the given level of a radix tree, of the node above position x. */
  function Up(r: nat, x: nat, level: nat): nat
    requires r > 0
  {
    PowPositive(r, level);
    x / Pow(r, level)
  }

  lemma UpZero(r: nat, x: nat)
    requires r > 0
    ensures Up(r, x, 0) == x
  {
  }

  lemma UpStep(r: nat, x: nat, level: nat)
    requires r > 0
    ensures Up(r, x, level + 1) == Up(r, x, level) / r
    ensures Up(r, x, level) == Kid(r, Up(r, x, level + 1), Up(r, x, level) % r)
  {
    PowPositive(r, level);
    DivTwice(x, Pow(r, level), r);
    assert Pow(r, level + 1) == Pow(r, level) * r;
  }

  lemma UpUp(r: nat, x: nat, a: nat, b: nat)
    requires r > 0
    ensures Up(r, Up(r, x, a), b) == Up(r, x, a + b)
  {
    PowPositive(r, a);
    PowPositive(r, b);
    PowAdd(r, a, b);
    DivTwice(x, Pow(r, a), Pow(r, b));
  }

  lemma UpMonotone(r: nat, x: nat, y: nat, level: nat)
    requires r > 0 && x <= y
    ensures Up(r, x, level) <= Up(r, y, level)
  {
    PowPositive(r, level);
    DivMonotone(x, y, Pow(r, level));
  }

  lemma DivMonotone(x: nat, y: nat, m: nat)
    requires m > 0 && x <= y
    ensures x / m <= y / m
  {
    QuotientsOrdered(x, y, m, x / m, x % m, y / m, y % m);
  }

  lemma QuotientsOrdered(x: nat, y: nat, m: nat, p: nat, s: nat, q: nat, r: nat)
    requires x <= y && r < m && x == m * p + s && y == m * q + r
    ensures p <= q
  {
    if p > q { MulMonotone(m, q + 1, p); }
  }

  /** Number of radix-r digits of x: the depth of a complete tree reaching leaf x. */
  function Digits(r: nat, x: nat): nat
    requires r >= 2
  {
    if x == 0 then 0 else
      DivLess(x, r);
      1 + Digits(r, x / r)
  }

  lemma DivLess(x: nat, r: nat)
    requires x > 0 && r >= 2
    ensures x / r < x
  {
    QuotientSmaller(x, r, x / r, x % r);
  }

  lemma QuotientSmaller(x: nat, r: nat, q: nat, s: nat)
    requires x > 0 && r >= 1 && x == r * q + s
    ensures q <= x && (r >= 2 ==> q < x)
  {
    assert r * q == (r - 1) * q + q;
    assert (r - 1) * q >= 0;
    if r >= 2 { assert (r - 1) * q == (r - 2) * q + q && (r - 2) * q >= 0; }
  }

  /** A shift reaches 0 exactly from the depth on. */
  lemma {:induction false} DigitsExact(r: nat, x: nat, level: nat)
    requires r >= 2
    ensures Up(r, x, level) == 0 <==> level >= Digits(r, x)
    decreases x
  {
    if x > 0 {
      DivLess(x, r);
      if level == 0 {
        UpZero(r, x);
      } else {
        DigitsExact(r, x / r, level - 1);
        UpUp(r, x, 1, level - 1);
        UpStep(r, x, 0);
        UpZero(r, x);
      }
    } else {
      PowPositive(r, level);
    }
  }

  lemma DigitsMonotone(r: nat, x: nat, y: nat)
    requires r >= 2 && x <= y
    ensures Digits(r, x) <= Digits(r, y)
  {
    DigitsExact(r, y, Digits(r, y));
    DigitsExact(r, x, Digits(r, y));
    UpMonotone(r, x, y, Digits(r, y));
  }

  /** The C code's logical shift, total even for shifts of 32 bits or more. */
  function LogShiftR(x: Word, nbits: nat): Word {
    if nbits >= 32 then 0 else
      PowPositive(2, nbits);
      DivAtMost(x, Pow(2, nbits));
      x / Pow(2, nbits)
  }

  lemma DivAtMost(x: nat, m: nat)
    requires m > 0
    ensures x / m <= x
  {
    if x > 0 { QuotientSmaller(x, m, x / m, x % m); } else { QuotientUnique(0, m, 0, 0); }
  }

  lemma DivSmall(x: nat, m: nat)
    requires x < m
    ensures x / m == 0
  {
    QuotientUnique(x, m, 0, x);
  }

  /** Shifting by level * k bits finds the ancestor index in a radix 2^k tree. */
  lemma LogShiftIsUp(x: Word, k: nat, level: nat)
    requires k >= 1
    ensures Pow(2, k) > 0
    ensures LogShiftR(x, level * k) == Up(Pow(2, k), x, level)
  {
    PowPositive(2, k);
    PowPositive(2, level * k);
    PowPow(2, k, level);
    if level * k >= 32 {
      Pow2Of32();
      PowMonotone(2, 32, level * k);
      DivSmall(x, Pow(2, level * k));
    }
  }
}
