/** The remainder of two doubles, computed on the two words of each. */
module Fmods {
  import opened Radix
  import opened Bits

  const TWO20: nat := 0x10_0000
  const TWO31: nat := 0x8000_0000
  const TWO52: nat := 0x10_0000_0000_0000
  const INFINITE: nat := 0x7ff0_0000

  /** A double: its sign, the rest of its high word, and its low word. */
  datatype Double = Double(neg: bool, hi: Half, lo: Word)

  type Half = w: nat | w < 0x8000_0000

  datatype Result = NotANumber | Number(value: Double)

  predicate Finite(d: Double) {
    d.hi < INFINITE
  }

  predicate IsNaN(d: Double) {
    d.hi > INFINITE || (d.hi == INFINITE && d.lo != 0)
  }

  predicate IsZero(d: Double) {
    d.hi == 0 && d.lo == 0
  }

  function Expo(hi: nat): nat {
    hi / TWO20
  }

  function Fraction(hi: nat, lo: nat): nat {
    (hi % TWO20) * TWO32 + lo
  }

  /** The absolute value of a finite double, in units of the smallest one, 2^-1074. */
  function Mag(hi: nat, lo: nat): nat {
    if Expo(hi) == 0 then Fraction(hi, lo) else (TWO52 + Fraction(hi, lo)) * Two(Expo(hi) - 1)
  }

  // ---- words ----

  function Shl(x: nat, n: nat): (w: Word) {
    (x * Two(n)) % TWO32
  }

  function Shr(x: nat, n: nat): nat {
    QuotientNat(x, Two(n));
    x / Two(n)
  }

  /** The number that two words make up. */
  function Both(h: int, l: int): int {
    h * TWO32 + l
  }

  /** A power of two. */
  function Two(n: nat): (p: nat)
    ensures p > 0
  {
    PowPositive(2, n);
    Pow(2, n)
  }

  lemma TwoAdd(a: nat, b: nat)
    ensures Two(a + b) == Two(a) * Two(b)
  {
    PowAdd(2, a, b);
  }

  lemma Doubling(n: nat)
    ensures Two(n + 1) == 2 * Two(n)
  {
  }

  lemma Powers()
    ensures Two(0) == 1 && Two(1) == 2 && Two(20) == TWO20 && Two(21) == 2 * TWO20 && Two(31) == TWO31
    ensures Two(32) == TWO32
    ensures Two(52) == TWO52 && Two(53) == 2 * TWO52
  {
    assert Pow(2, 10) == 1024;
    PowAdd(2, 10, 10);
    Doubling(20);
    PowAdd(2, 21, 10);
    Doubling(31);
    PowAdd(2, 20, 32);
    Doubling(52);
  }

  lemma OrApart(a: nat, n: nat, b: nat)
    requires b < Two(n)
    ensures Or(a * Two(n), b) == a * Two(n) + b
  {
    OrDisjoint(a, n, b);
  }

  lemma OrOne(a: nat)
    ensures Or(a, 1) == a - a % 2 + 1
  {
    OrParts(a, 1);
    OrZero(a / 2);
  }

  // ---- two-word arithmetic ----

  lemma Doubled(h: nat, l: Word)
    ensures Both(h + h + Shr(l, 31), (l + l) % TWO32) == 2 * Both(h, l)
  {
    hide Two;
    Powers();
    if l >= TWO31 { QuotientUnique(l, TWO31, 1, l - TWO31); } else { QuotientUnique(l, TWO31, 0, l); }
  }

  function Borrow(lx: Word, ly: Word): nat {
    if lx < ly then 1 else 0
  }

  lemma Subtracted(hx: int, lx: Word, hy: int, ly: Word)
    ensures Both(hx - hy - Borrow(lx, ly), (lx - ly) % TWO32) == Both(hx, lx) - Both(hy, ly)
    ensures hx - hy - Borrow(lx, ly) < 0 <==> Both(hx, lx) < Both(hy, ly)
  {
  }

  /** What a shift to the left pushes out of a word and what it leaves. */
  lemma ShiftedWord(l: Word, n: nat)
    requires n <= 32
    ensures l * Two(n) == Shr(l, 32 - n) * TWO32 + Shl(l, n) && Shr(l, 32 - n) < Two(n)
    ensures Shl(l, n) == (l % Two(32 - n)) * Two(n)
  {
    hide Two;
    Powers();
    TwoAdd(32 - n, n);
    WordTimes(l, Two(32 - n), Two(n));
  }

  lemma WordTimes(l: Word, p: nat, q: nat)
    requires p > 0 && q > 0 && p * q == TWO32
    ensures l * q == (l / p) * TWO32 + (l * q) % TWO32 && l / p < q
    ensures (l * q) % TWO32 == (l % p) * q
  {
    assert l == p * (l / p) + l % p;
    SplitProduct(l, p, q, l / p, l % p);
    MulMonotone(q, l % p + 1, p);
    QuotientUnique(l * q, TWO32, l / p, (l % p) * q);
    if l / p >= q { MulMonotone(p, q, l / p); }
  }

  lemma SplitProduct(l: nat, p: nat, q: nat, a: nat, b: nat)
    requires l == p * a + b
    ensures l * q == (p * q) * a + b * q
  {
  }

  /** Two words shifted to the left. */
  lemma ShiftedLeft(h: nat, l: Word, n: nat)
    requires n <= 32 && h * Two(n) < TWO32
    ensures Both(Or(Shl(h, n), Shr(l, 32 - n)), Shl(l, n)) == Both(h, l) * Two(n)
  {
    hide Or, Two;
    ShiftedWord(l, n);
    OrApart(h, n, Shr(l, 32 - n));
    TimesSum(h, l, Two(n));
  }

  lemma TimesSum(h: nat, l: nat, q: nat)
    ensures (h * TWO32 + l) * q == h * q * TWO32 + l * q
  {
    assert (h * TWO32) * q == (h * q) * TWO32;
  }

  /** Two words shifted to the right. */
  lemma ShiftedRight(h: Word, l: Word, n: nat)
    requires n <= 32
    ensures Or(Shl(h, 32 - n), Shr(l, n)) == Or(Shr(l, n), Shl(h, 32 - n)) < TWO32
    ensures Both(Shr(h, n), Or(Shr(l, n), Shl(h, 32 - n))) == Shr(Both(h, l), n)
  {
    hide Or, Two;
    Powers();
    TwoAdd(32 - n, n);
    var q, p := Two(n), Two(32 - n);
    ShiftedWord(h, 32 - n);
    WordQuotient(l, p, q);
    OrApart(h % q, 32 - n, l / q);
    OrCommutes(Shr(l, n), Shl(h, 32 - n));
    PartsShifted(h, l, p, q);
  }

  lemma WordQuotient(l: Word, p: nat, q: nat)
    requires q > 0 && p * q == TWO32
    ensures 0 <= l / q < p
  {
    assert l == q * (l / q) + l % q;
    if l / q >= p { MulMonotone(q, p, l / q); }
  }

  lemma PartsShifted(h: Word, l: Word, p: nat, q: nat)
    requires q > 0 && p > 0 && p * q == TWO32
    ensures (h % q) * p + l / q < TWO32
    ensures (h / q) * TWO32 + ((h % q) * p + l / q) == (h * TWO32 + l) / q
  {
    WordQuotient(l, p, q);
    Parts(h, q);
    Parts(l, q);
    ShiftedParts(h / q, h % q, l / q, l % q, p, q);
    QuotientUnique(h * TWO32 + l, q, (h / q) * TWO32 + (h % q) * p + l / q, l % q);
  }

  lemma Parts(x: nat, q: nat)
    requires q > 0
    ensures x == q * (x / q) + x % q && 0 <= x % q < q && x / q >= 0
  {
    QuotientNat(x, q);
  }

  lemma ShiftedParts(a: nat, b: nat, c: nat, d: nat, p: nat, q: nat)
    requires b < q && d < q && c < p && p * q == TWO32
    ensures b * p + c < TWO32
    ensures (q * a + b) * TWO32 + (q * c + d) == q * (a * TWO32 + b * p + c) + d
  {
    MulMonotone(p, b + 1, q);
    assert q * (b * p) == b * (p * q);
    assert (q * a + b) * TWO32 == q * (a * TWO32) + b * TWO32;
  }

  // ---- magnitudes ----

  function MagOf(d: Double): nat {
    Mag(d.hi, d.lo)
  }

  ghost predicate Less(hx: nat, lx: nat, hy: nat, ly: nat) {
    hx < hy || (hx == hy && lx < ly)
  }

  lemma FractionBelow(hi: nat, lo: Word)
    ensures 0 <= Fraction(hi, lo) < TWO52
  {
    Parts(hi, TWO20);
  }

  /** The words of two doubles compare like their magnitudes. */
  lemma MagOrdered(hx: nat, lx: Word, hy: nat, ly: Word)
    requires Less(hx, lx, hy, ly)
    ensures Mag(hx, lx) < Mag(hy, ly)
  {
    hide Two;
    Parts(hx, TWO20);
    Parts(hy, TWO20);
    FractionBelow(hx, lx);
    FractionBelow(hy, ly);
    Powers();
    if Expo(hx) == Expo(hy) {
      if Expo(hx) > 0 { TimesLess(TWO52 + Fraction(hx, lx), TWO52 + Fraction(hy, ly), Two(Expo(hx) - 1)); }
    } else {
      ExpoOrdered(hx, hy);
      MulMonotone(Two(Expo(hy) - 1), TWO52, TWO52 + Fraction(hy, ly));
      MulMonotone(TWO52, 1, Two(Expo(hy) - 1));
      if Expo(hx) > 0 {
        var q := Two(Expo(hx) - 1);
        TimesLess(TWO52 + Fraction(hx, lx), 2 * TWO52, q);
        TwoOrdered(Expo(hx), Expo(hy) - 1);
        Doubling(Expo(hx) - 1);
        MulMonotone(TWO52, 2 * q, Two(Expo(hy) - 1));
      }
    }
  }

  lemma ExpoOrdered(hx: nat, hy: nat)
    requires hx < hy && Expo(hx) != Expo(hy)
    ensures 0 <= Expo(hx) < Expo(hy)
  {
    Parts(hx, TWO20);
    Parts(hy, TWO20);
  }

  lemma TimesLess(a: nat, b: nat, q: nat)
    requires a < b && q > 0
    ensures a * q < b * q
  {
    MulMonotone(q, a + 1, b);
  }

  lemma TwoOrdered(a: nat, b: nat)
    requires a <= b
    ensures Two(a) <= Two(b)
  {
    PowMonotone(2, a, b);
  }

  /** No two doubles have the same magnitude, but for the sign. */
  lemma MagUnique(x: Double, y: Double)
    requires MagOf(x) == MagOf(y)
    ensures x.hi == y.hi && x.lo == y.lo
  {
    if Less(x.hi, x.lo, y.hi, y.lo) { MagOrdered(x.hi, x.lo, y.hi, y.lo); }
    if Less(y.hi, y.lo, x.hi, x.lo) { MagOrdered(y.hi, y.lo, x.hi, x.lo); }
  }

  lemma MagPositive(d: Double)
    requires !IsZero(d)
    ensures MagOf(d) > 0
  {
    MagOrdered(0, 0, d.hi, d.lo);
  }

  // ---- exponents ----

  /** ix is the exponent of the first bit. */
  ghost predicate FirstBit(hi: nat, lo: nat, ix: int) {
    if Expo(hi) > 0 then ix == Expo(hi) - 1023
    else -1074 <= ix < -1022 && Two(ix + 1074) <= Fraction(hi, lo) < Two(ix + 1075)
  }

  method Ilogb(hi: Half, lo: Word) returns (ix: int)
    requires hi > 0 || lo > 0
    ensures FirstBit(hi, lo, ix)
  {
    hide Two;
    Powers();
    Parts(hi, TWO20);
    if hi < TWO20 {
      var i: Word;
      if hi == 0 { ix, i := -1043, lo; } else { ix, i := -1022, Shl(hi, 11); }
      TwoAdd(20, 11);
      ShiftFits(hi, 11);
      ghost var i0, ix0, c: nat := i, ix, 0;
      while 0 < i < TWO31  // positive as a signed word
        invariant i > 0 && i == i0 * Two(c) && ix == ix0 - c && (c == 0 || i < TWO32)
        decreases TWO32 - i
      {
        i := Shl(i, 1);
        ix := ix - 1;
        TwoAdd(c, 1);
        assert i == i0 * Two(c) * 2;
        c := c + 1;
      }
      if hi == 0 { FirstOfLow(lo, c); } else { FirstOfHigh(hi, lo, c); }
    } else {
      ix := Shr(hi, 20) - 1023;
    }
  }

  lemma ShiftFits(hi: nat, n: nat)
    requires hi < TWO20 && n <= 11
    ensures hi * Two(n) < TWO31 && Shl(hi, n) == hi * Two(n)
  {
    Powers();
    TwoOrdered(n, 11);
    TwoAdd(20, 11);
    MulMonotone(hi, Two(n), Two(11));
    TimesLess(hi, TWO20, Two(11));
    QuotientUnique(hi * Two(n), TWO32, 0, hi * Two(n));
  }

  lemma Cancelled(a: nat, n: nat, k: nat)
    ensures a * Two(n) >= Two(k + n) <==> a >= Two(k)
  {
    TwoAdd(k, n);
    var p, q := Two(k), Two(n);
    hide Two;
    if a >= p { MulMonotone(q, p, a); } else { TimesLess(a, p, q); }
  }

  lemma FirstOfLow(lo: Word, c: nat)
    requires TWO31 <= lo * Two(c) < TWO32
    ensures c <= 31 && FirstBit(0, lo, -1043 - c)
  {
    hide Two;
    Powers();
    if c > 31 {
      Cancelled(1, c, 0);
      TwoOrdered(32, c);
      MulMonotone(Two(c), 1, lo);
    } else {
      Cancelled(lo, c, 31 - c);
      Cancelled(lo, c, 32 - c);
    }
  }

  lemma FirstOfHigh(hi: nat, lo: Word, c: nat)
    requires 0 < hi < TWO20 && TWO31 <= hi * Two(11) * Two(c) < TWO32
    ensures 1 <= c <= 20 && FirstBit(hi, lo, -1022 - c)
  {
    hide Two;
    Powers();
    TwoAdd(11, c);
    assert hi * Two(11) * Two(c) == hi * Two(11 + c);
    if c > 20 {
      TwoOrdered(32, 11 + c);
      MulMonotone(Two(11 + c), 1, hi);
    } else {
      Cancelled(hi, 11 + c, 20 - c);
      Cancelled(hi, 11 + c, 21 - c);
      TwoAdd(20 - c, 32);
      TwoAdd(21 - c, 32);
    }
  }

  /** h and l hold the first 53 bits of the magnitude, ix its exponent. */
  ghost predicate Normal(h: nat, l: Word, ix: int, mag: nat) {
    && ix >= -1074 && TWO52 <= Both(h, l) < 2 * TWO52
    && Both(h, l) * Two(ix + 1074) == mag * TWO52
  }

  /** Sets up the words of a number, with its first bit in place. */
  method Normalize(hi: Half, lo: Word, ix: int) returns (h: nat, l: Word)
    requires FirstBit(hi, lo, ix)
    ensures Normal(h, l, ix, Mag(hi, lo)) && h < 2 * TWO20
  {
    hide Two, Or, And;
    Powers();
    Parts(hi, TWO20);
    FractionBelow(hi, lo);
    if ix >= -1022 {
      Masked(hi);
      OrApart(1, 20, And(0xf_ffff, hi));
      h, l := Or(0x10_0000, And(0xf_ffff, hi)), lo;
      NormalNumber(hi, lo, h);
    } else {
      var n := -1022 - ix;
      SubnormalNumber(hi, lo, ix, n);
      if n <= 31 {
        h, l := Or(Shl(hi, n), Shr(lo, 32 - n)), Shl(lo, n);
        ShiftedLeft(hi, lo, n);
      } else {
        HighIsZero(hi, lo, n);
        h, l := Shl(lo, n - 32), 0;
      }
    }
  }

  lemma Masked(hi: nat)
    ensures And(0xf_ffff, hi) == hi % TWO20
  {
    hide And;
    MaskIsMod(20, hi);
    Powers();
  }

  lemma NormalNumber(hi: nat, lo: Word, h: nat)
    requires Expo(hi) > 0 && h == TWO20 + hi % TWO20
    ensures Normal(h, lo, Expo(hi) - 1023, Mag(hi, lo))
  {
    hide Two;
    FractionBelow(hi, lo);
    Powers();
    TwoAdd(Expo(hi) - 1, 52);
    var v, q := TWO52 + Fraction(hi, lo), Two(Expo(hi) - 1);
    assert v * (q * TWO52) == v * q * TWO52;
  }

  lemma SubnormalNumber(hi: nat, lo: Word, ix: int, n: nat)
    requires FirstBit(hi, lo, ix) && ix < -1022 && n == -1022 - ix
    ensures 1 <= n <= 52 && Expo(hi) == 0 && hi < TWO20 && Fraction(hi, lo) == Both(hi, lo)
    ensures TWO52 <= Both(hi, lo) * Two(n) < 2 * TWO52 && hi * Two(n) < 2 * TWO20
    ensures Both(hi, lo) * Two(n) * Two(ix + 1074) == Mag(hi, lo) * TWO52
  {
    hide Two;
    Parts(hi, TWO20);
    Powers();
    Cancelled(Both(hi, lo), n, ix + 1074);
    Cancelled(Both(hi, lo), n, ix + 1075);
    TwoAdd(n, ix + 1074);
    var v, q := Both(hi, lo), Two(n);
    assert v * q * Two(ix + 1074) == v * (q * Two(ix + 1074));
    TimesSum(hi, lo, q);
    assert lo * q >= 0;
    if hi * q >= 2 * TWO20 { MulMonotone(TWO32, 2 * TWO20, hi * q); }
  }

  lemma HighIsZero(hi: nat, lo: Word, n: nat)
    requires 32 <= n <= 52 && hi * Two(n) < 2 * TWO20 && Both(hi, lo) * Two(n) < 2 * TWO52
    ensures hi == 0 && Both(Shl(lo, n - 32), 0) == Both(hi, lo) * Two(n) && Shl(lo, n - 32) < 2 * TWO20
  {
    hide Two;
    Powers();
    TwoOrdered(32, n);
    if hi > 0 { MulMonotone(Two(n), 1, hi); }
    TwoAdd(n - 32, 32);
    var p := Two(n - 32);
    assert lo * (p * TWO32) == lo * p * TWO32;
    QuotientUnique(lo * p, TWO32, 0, lo * p);
  }

  // ---- the remainder ----

  /** x * 2^n, less multiples of y, at each step of the loop */
  lemma ModStep(x: nat, y: nat, p: nat)
    requires y > 0
    ensures x >= y ==> (2 * (x - y) * p) % y == (x * (2 * p)) % y
    ensures (2 * x * p) % y == (x * (2 * p)) % y
    ensures x == y ==> (x * (2 * p)) % y == 0
  {
    assert 2 * x * p == x * (2 * p);
    if x >= y {
      assert x * (2 * p) == 2 * (x - y) * p + y * (2 * p);
      ModPlus(2 * (x - y) * p, y, 2 * p);
    }
    if x == y { ModPlus(0, y, 2 * p); }
  }

  lemma ModPlus(a: nat, y: nat, k: nat)
    requires y > 0
    ensures (a + y * k) % y == a % y
  {
    Parts(a, y);
    QuotientUnique(a + y * k, y, a / y + k, a % y);
  }

  /** The fixed-point remainder of x * 2^n by y, bit by bit. */
  method Reduce(hx0: nat, lx0: Word, hy: nat, ly: Word, n0: nat) returns (h: nat, l: Word)
    requires TWO52 <= Both(hx0, lx0) < 2 * TWO52 && TWO52 <= Both(hy, ly) < 2 * TWO52
    ensures Both(h, l) == (Both(hx0, lx0) * Two(n0)) % Both(hy, ly)
  {
    hide Two;
    Powers();
    ghost var y: nat := Both(hy, ly);
    var hx: nat, lx: Word, n: nat := hx0, lx0, n0;
    while n > 0
      invariant Both(hx, lx) < 2 * y
      invariant (Both(hx, lx) * Two(n)) % y == (Both(hx0, lx0) * Two(n0)) % y
    {
      n := n - 1;
      Doubling(n);
      ModStep(Both(hx, lx), y, Two(n));
      var hz: int, lz: Word := hx - hy, (lx - ly) % TWO32;
      if lx < ly { hz := hz - 1; }
      Subtracted(hx, lx, hy, ly);
      if hz < 0 {
        Doubled(hx, lx);
        hx, lx := hx + hx + Shr(lx, 31), (lx + lx) % TWO32;
      } else {
        if hz == 0 && lz == 0 { return 0, 0; }
        Doubled(hz, lz);
        hx, lx := hz + hz + Shr(lz, 31), (lz + lz) % TWO32;
      }
    }
    var hz: int, lz: Word := hx - hy, (lx - ly) % TWO32;
    if lx < ly { hz := hz - 1; }
    Subtracted(hx, lx, hy, ly);
    ghost var x := Both(hx, lx);
    ModSmall(x, y);
    if hz >= 0 { hx, lx := hz, lz; }
    h, l := hx, lx;
  }

  lemma ModSmall(x: nat, y: nat)
    requires y > 0 && x < 2 * y
    ensures x % y == if x < y then x else x - y
  {
    if x < y { QuotientUnique(x, y, 0, x); } else { QuotientUnique(x, y, 1, x - y); }
  }

  // ---- back to a double ----

  /** The words of the number Both(h, l) * 2^(iy - 52), which is mag units. */
  method Pack(h0: nat, l0: Word, iy0: int, ghost mag: nat) returns (hi: Half, lo: Word)
    requires 0 < Both(h0, l0) < 2 * TWO52 && -1074 <= iy0 <= 1023
    requires Both(h0, l0) * Two(iy0 + 1074) == mag * TWO52
    ensures hi < INFINITE && Mag(hi, lo) == mag
  {
    hide Two, Or;
    Powers();
    var h: nat, l: Word, iy: int := h0, l0, iy0;
    while h < TWO20
      invariant 0 < Both(h, l) < 2 * TWO52 && -1074 <= iy <= iy0
      invariant Both(h, l) * Two(iy + 1074) == mag * TWO52
      decreases iy + 1074
    {
      NotLast(Both(h, l), iy + 1074, mag);
      Doubled(h, l);
      Doubling(iy + 1073);
      assert Both(h, l) * Two(iy + 1074) == 2 * Both(h, l) * Two(iy + 1073);
      h, l := h + h + Shr(l, 31), (l + l) % TWO32;
      iy := iy - 1;
    }
    if iy >= -1022 {
      OrApart(iy + 1023, 20, h - TWO20);
      OrCommutes(h - TWO20, Shl(iy + 1023, 20));
      ExpoFits(iy + 1023);
      hi, lo := Or(h - TWO20, Shl(iy + 1023, 20)), l;
      PackedNormal(h, l, iy, mag);
    } else {
      var n := -1022 - iy;
      PackedSubnormal(h, l, iy, n, mag);
      if n <= 20 {
        lo := Or(Shr(l, n), Shl(h, 32 - n));
        hi := Shr(h, n);
      } else if n <= 31 {
        lo, hi := Or(Shl(h, 32 - n), Shr(l, n)), 0;
      } else {
        lo, hi := Shr(h, n - 32), 0;
      }
    }
  }

  /** A number whose first bit is not in place can still be doubled. */
  lemma NotLast(v: nat, e: nat, mag: nat)
    requires 0 < v < TWO52 && v * Two(e) == mag * TWO52
    ensures e > 0
  {
    Powers();
  }

  lemma ExpoFits(e: nat)
    requires e <= 2046
    ensures Shl(e, 20) == e * TWO20 < INFINITE
  {
    Powers();
  }

  lemma CancelFactor(a: nat, b: nat, p: nat)
    requires p > 0 && a * p == b * p
    ensures a == b
  {
    if a < b { TimesLess(a, b, p); }
    if b < a { TimesLess(b, a, p); }
  }

  lemma PackedNormal(h: nat, l: Word, iy: int, mag: nat)
    requires TWO20 <= h && Both(h, l) < 2 * TWO52 && -1022 <= iy <= 1023 && Both(h, l) * Two(iy + 1074) == mag * TWO52
    ensures var hi := (iy + 1023) * TWO20 + (h - TWO20); hi < INFINITE && Mag(hi, l) == mag
  {
    hide Two;
    var hi := (iy + 1023) * TWO20 + (h - TWO20);
    QuotientUnique(hi, TWO20, iy + 1023, h - TWO20);
    Powers();
    TwoAdd(iy + 1022, 52);
    var v, q := Both(h, l), Two(iy + 1022);
    assert v * (q * TWO52) == v * q * TWO52;
    CancelFactor(v * q, mag, TWO52);
  }

  lemma PackedSubnormal(h: nat, l: Word, iy: int, n: nat, mag: nat)
    requires TWO20 <= h && Both(h, l) < 2 * TWO52 && -1074 <= iy < -1022 && n == -1022 - iy
    requires Both(h, l) * Two(iy + 1074) == mag * TWO52
    ensures 1 <= n <= 52 && mag < TWO52 && h < 2 * TWO20
    ensures n <= 31 ==> var lo := Or(Shr(l, n), Shl(h, 32 - n));
      lo < TWO32 && lo == Or(Shl(h, 32 - n), Shr(l, n)) && Shr(h, n) < TWO20 && Mag(Shr(h, n), lo) == mag
    ensures 21 <= n <= 31 ==> Shr(h, n) == 0
    ensures n >= 32 ==> Shr(h, n - 32) < TWO32 && Mag(0, Shr(h, n - 32)) == mag
  {
    hide Two, Or;
    Powers();
    TwoAdd(52 - n, n);
    var v, p, q := Both(h, l), Two(52 - n), Two(n);
    assert mag * (p * q) == mag * q * p;
    CancelFactor(v, mag * q, p);
    QuotientUnique(v, q, mag, 0);
    TwoOrdered(1, n);
    MulMonotone(mag, 2, q);
    if n <= 31 {
      ShiftedRight(h, l, n);
      SmallHigh(Shr(h, n), Or(Shr(l, n), Shl(h, 32 - n)));
      if n >= 21 {
        TwoOrdered(21, n);
        QuotientUnique(h, q, 0, h);
      }
    } else {
      LowLost(h, l, n, mag);
      SmallHigh(0, Shr(h, n - 32));
    }
  }

  /** Below the first exponent, the words are the magnitude. */
  lemma SmallHigh(hi: nat, lo: Word)
    requires Both(hi, lo) < TWO52
    ensures hi < TWO20 && Mag(hi, lo) == Both(hi, lo)
  {
    hide Two;
    QuotientUnique(hi, TWO20, 0, hi);
  }

  lemma LowLost(h: nat, l: Word, n: nat, mag: nat)
    requires 32 <= n <= 52 && h < 2 * TWO20 && Both(h, l) == mag * Two(n)
    ensures Shr(h, n - 32) == mag < TWO32
  {
    hide Two;
    Powers();
    TwoAdd(n - 32, 32);
    var p := Two(n - 32);
    assert mag * (p * TWO32) == mag * p * TWO32;
    assert h == mag * p && l == 0;
    QuotientUnique(h, p, mag, 0);
    MulMonotone(mag, 1, p);
  }

  // ---- fmod ----

  /** The bit that (l | -l) >> 31 leaves: whether l is not zero */
  function AnyBit(l: Word): nat {
    if l == 0 then 0 else 1
  }

  lemma NaNTest(hi: nat, lo: Word)
    requires hi < TWO31
    ensures Or(hi, AnyBit(lo)) > INFINITE <==> hi > INFINITE || (hi == INFINITE && lo != 0)
  {
    hide Or;
    OrZero(hi);
    OrOne(hi);
  }

  lemma ScaledMod(x: nat, y: nat, a: nat, b: nat, p: nat)
    requires y > 0 && p > 0 && b > 0 && x * TWO52 == a * p && y * TWO52 == b * p
    ensures (a % b) * p == (x % y) * TWO52
  {
    Parts(x, y);
    var q, r := x / y, x % y;
    assert x * TWO52 == y * TWO52 * q + r * TWO52;
    assert a * p == (b * q) * p + r * TWO52;
    Parts(a, b);
    ModTimes(a, b, p);
    ModTimes(x, y, TWO52);
  }

  /** Scaling both scales the remainder. */
  lemma ModTimes(a: nat, b: nat, p: nat)
    requires b > 0 && p > 0
    ensures b * p > 0 && (a * p) % (b * p) == (a % b) * p
  {
    Parts(a, b);
    TimesLess(0, b, p);
    TimesLess(a % b, b, p);
    assert a * p == (b * p) * (a / b) + (a % b) * p by { assert a * p == (b * (a / b) + a % b) * p; }
    QuotientUnique(a * p, b * p, a / b, (a % b) * p);
  }

  method Fmod(x: Double, y: Double) returns (r: Result)
    ensures r.NotANumber? <==> IsZero(y) || !Finite(x) || IsNaN(y)
    ensures r.Number? && !Finite(y) ==> r.value == x
    ensures r.Number? && Finite(y) ==>
      r.value.neg == x.neg && Finite(r.value) && MagOf(y) > 0 && MagOf(r.value) == MagOf(x) % MagOf(y)
  {
    hide Two, Or, Mag, FirstBit, Normal;
    var hx, lx, hy, ly := x.hi, x.lo, y.hi, y.lo;
    NaNTest(hy, ly);
    if (hy == 0 && ly == 0) || hx >= INFINITE || Or(hy, AnyBit(ly)) > INFINITE {
      return NotANumber;
    }
    MagPositive(y);
    if hx <= hy {
      if hx < hy || lx < ly {
        MagOrdered(hx, lx, hy, ly);
        ModSmall(MagOf(x), MagOf(y));
        return Number(x);
      }
      if lx == ly {
        ModSmall(MagOf(x), MagOf(y));
        ZeroMag();
        return Number(Double(x.neg, 0, 0));
      }
    }
    ghost var mx, my := MagOf(x), MagOf(y);
    var ix := Ilogb(hx, lx);
    var iy := Ilogb(hy, ly);
    ExponentsOrdered(hx, hy, lx, ly, ix, iy);
    var h, l := Normalize(hx, lx, ix);
    var k, m := Normalize(hy, ly, iy);
    NormalParts(h, l, ix, mx);
    NormalParts(k, m, iy, my);
    var h1, l1 := Reduce(h, l, k, m, ix - iy);
    RemainderScaled(h, l, ix, mx, k, m, iy, my, Both(h1, l1));
    if h1 == 0 && l1 == 0 {
      ZeroMag();
      NoRemainder(mx % my);
      return Number(Double(x.neg, 0, 0));
    }
    var hi, lo := Pack(h1, l1, iy, mx % my);
    r := Number(Double(x.neg, hi, lo));
  }

  lemma RemainderScaled(h: nat, l: Word, ix: int, mx: nat, k: nat, m: Word, iy: int, my: nat, r: nat)
    requires Normal(h, l, ix, mx) && Normal(k, m, iy, my) && iy <= ix && my > 0
    requires r == (Both(h, l) * Two(ix - iy)) % Both(k, m)
    ensures r < 2 * TWO52 && r * Two(iy + 1074) == (mx % my) * TWO52
  {
    hide Two;
    TwoAdd(ix - iy, iy + 1074);
    var v, q, p := Both(h, l), Two(ix - iy), Two(iy + 1074);
    assert v * (q * p) == v * q * p;
    ScaledMod(mx, my, v * q, Both(k, m), p);
  }

  lemma NormalParts(h: nat, l: Word, ix: int, mag: nat)
    requires Normal(h, l, ix, mag)
    ensures ix >= -1074 && TWO52 <= Both(h, l) < 2 * TWO52
  {
  }

  lemma NoRemainder(r: nat)
    requires 0 == r * TWO52
    ensures r == 0
  {
  }

  lemma ZeroMag()
    ensures Mag(0, 0) == 0
  {
  }

  /** The larger number has the larger exponent. */
  lemma ExponentsOrdered(hx: nat, hy: nat, lx: Word, ly: Word, ix: int, iy: int)
    requires FirstBit(hx, lx, ix) && FirstBit(hy, ly, iy) && hx < INFINITE && Less(hy, ly, hx, lx)
    ensures -1074 <= iy <= ix <= 1023
  {
    hide Two;
    Parts(hx, TWO20);
    Parts(hy, TWO20);
    if Expo(hx) == 0 {
      if ix < iy { TwoOrdered(ix + 1075, iy + 1074); }
    }
  }
}
