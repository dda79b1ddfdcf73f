/** Bitwise operations on unsigned machine words, written on natural numbers. */
module Bits {
  import opened Radix

  predicate Bit(x: nat, i: nat) {
    if i == 0 then x % 2 == 1 else Bit(x / 2, i - 1)
  }

  function And(x: nat, y: nat): nat {
    if x == 0 || y == 0 then 0 else (x % 2) * (y % 2) + 2 * And(x / 2, y / 2)
  }

  function Or(x: nat, y: nat): nat
    decreases x + y
  {
    if x == 0 && y == 0 then 0
    else (if x % 2 == 1 || y % 2 == 1 then 1 else 0) + 2 * Or(x / 2, y / 2)
  }

  function Xor(x: nat, y: nat): nat
    decreases x + y
  {
    if x == 0 && y == 0 then 0
    else (if x % 2 == y % 2 then 0 else 1) + 2 * Xor(x / 2, y / 2)
  }

  /** n-bit complement. */
  function Not(x: nat, n: nat): nat
    requires x < Pow(2, n)
  {
    Pow(2, n) - 1 - x
  }

  /** The n-bit word with all bits from s on set: ~0 << s. */
  function From(s: nat, n: nat): nat
    requires s <= n
  {
    PowMonotone(2, s, n);
    Pow(2, n) - Pow(2, s)
  }

  lemma {:induction false} BitZero(i: nat)
    ensures !Bit(0, i)
  {
    if i > 0 { BitZero(i - 1); }
  }

  lemma {:induction false} BitAnd(x: nat, y: nat, i: nat)
    ensures Bit(And(x, y), i) <==> Bit(x, i) && Bit(y, i)
    decreases i
  {
    if x == 0 || y == 0 {
      BitZero(i);
    } else if i > 0 {
      BitAnd(x / 2, y / 2, i - 1);
      assert And(x, y) / 2 == And(x / 2, y / 2);
    }
  }

  lemma OrParts(x: nat, y: nat)
    ensures Or(x, y) / 2 == Or(x / 2, y / 2)
    ensures Or(x, y) % 2 == 1 <==> x % 2 == 1 || y % 2 == 1
  {
  }

  lemma {:induction false} BitOr(x: nat, y: nat, i: nat)
    ensures Bit(Or(x, y), i) <==> Bit(x, i) || Bit(y, i)
    decreases i
  {
    hide Or;
    OrParts(x, y);
    if i > 0 { BitOr(x / 2, y / 2, i - 1); }
  }

  lemma {:induction false} BitOfPow(n: nat, i: nat)
    ensures Bit(Pow(2, n), i) <==> i == n
  {
    if n == 0 {
      if i > 0 { BitZero(i - 1); }
    } else if i > 0 {
      BitOfPow(n - 1, i - 1);
      assert Pow(2, n) / 2 == Pow(2, n - 1);
    } else {
      assert Pow(2, n) == 2 * Pow(2, n - 1);
    }
  }

  lemma {:induction false} BitOfNot(x: nat, n: nat, i: nat)
    requires x < Pow(2, n)
    ensures Bit(Not(x, n), i) <==> i < n && !Bit(x, i)
  {
    if n == 0 {
      BitZero(i);
    } else {
      assert Pow(2, n) == 2 * Pow(2, n - 1);
      assert Not(x, n) / 2 == Not(x / 2, n - 1);
      if i > 0 { BitOfNot(x / 2, n - 1, i - 1); }
    }
  }

  lemma {:induction false} BitOfFrom(s: nat, n: nat, i: nat)
    requires s <= n
    ensures Bit(From(s, n), i) <==> s <= i < n
  {
    if n == 0 {
      BitZero(i);
    } else if s == 0 {
      BitZero(i);
      PowPositive(2, n);
      BitOfNot(0, n, i);
    } else {
      assert Pow(2, n) == 2 * Pow(2, n - 1) && Pow(2, s) == 2 * Pow(2, s - 1);
      assert From(s, n) / 2 == From(s - 1, n - 1);
      if i > 0 { BitOfFrom(s - 1, n - 1, i - 1); }
    }
  }

  /** A word is zero exactly when it has no bits. */
  lemma {:induction false} SomeBit(x: nat) returns (i: nat)
    requires x > 0
    ensures Bit(x, i)
    decreases x
  {
    if x % 2 == 1 {
      i := 0;
    } else {
      i := SomeBit(x / 2);
      i := i + 1;
    }
  }

  lemma {:induction false} BitsBelow(x: nat, n: nat, i: nat)
    requires x < Pow(2, n) && Bit(x, i)
    ensures i < n
  {
    if n == 0 {
      BitZero(i);
    } else if i > 0 {
      assert Pow(2, n) == 2 * Pow(2, n - 1);
      BitsBelow(x / 2, n - 1, i - 1);
    }
  }

  lemma {:induction false} AndBelow(x: nat, y: nat, n: nat)
    requires x < Pow(2, n)
    ensures And(x, y) < Pow(2, n) && And(x, y) <= x
  {
    if x != 0 && y != 0 {
      assert Pow(2, n) == 2 * Pow(2, n - 1);
      AndBelow(x / 2, y / 2, n - 1);
    }
  }

  lemma {:induction false} OrBelow(x: nat, y: nat, n: nat)
    requires x < Pow(2, n) && y < Pow(2, n)
    ensures Or(x, y) < Pow(2, n)
    decreases n
  {
    if x != 0 || y != 0 {
      assert Pow(2, n) == 2 * Pow(2, n - 1);
      OrBelow(x / 2, y / 2, n - 1);
    }
  }

  lemma {:induction false} AndNotIsZero(x: nat, n: nat)
    requires x < Pow(2, n)
    ensures And(x, Not(x, n)) == 0
  {
    if n > 0 {
      assert Pow(2, n) == 2 * Pow(2, n - 1);
      assert Not(x, n) / 2 == Not(x / 2, n - 1);
      AndNotIsZero(x / 2, n - 1);
      assert (x % 2) * (Not(x, n) % 2) == 0;
    }
  }

  /** x & -x keeps exactly the lowest set bit. */
  lemma {:induction false} LowestBit(x: nat, n: nat) returns (i: nat)
    requires 0 < x < Pow(2, n)
    ensures i < n && And(x, Pow(2, n) - x) == Pow(2, i)
    ensures Bit(x, i) && forall j :: 0 <= j < i ==> !Bit(x, j)
  {
    assert n > 0;
    assert Pow(2, n) == 2 * Pow(2, n - 1);
    var y := Pow(2, n) - x;
    if x % 2 == 1 {
      i := 0;
      assert y / 2 == Not(x / 2, n - 1);
      AndNotIsZero(x / 2, n - 1);
    } else {
      i := LowestBit(x / 2, n - 1);
      assert y / 2 == Pow(2, n - 1) - x / 2;
      i := i + 1;
      forall j | 0 <= j < i ensures !Bit(x, j) {
        if j > 0 { assert !Bit(x / 2, j - 1); }
      }
    }
  }

  // ---- single bits of a 32-bit word ----

  function SetBit(x: Word, i: nat): (y: Word)
    requires i < 32
    ensures forall j: nat :: Bit(y, j) <==> j == i || Bit(x, j)
  {
    Pow2Of32();
    PowMonotone(2, i + 1, 32);
    PowPositive(2, i);
    OrBelow(x, Pow(2, i), 32);
    assert forall j: nat :: Bit(Or(x, Pow(2, i)), j) <==> j == i || Bit(x, j) by {
      forall j: nat ensures Bit(Or(x, Pow(2, i)), j) <==> j == i || Bit(x, j) {
        BitOr(x, Pow(2, i), j);
        BitOfPow(i, j);
      }
    }
    Or(x, Pow(2, i))
  }

  function ClearBit(x: Word, i: nat): (y: Word)
    requires i < 32
    ensures forall j: nat :: Bit(y, j) <==> j != i && Bit(x, j)
  {
    Pow2Of32();
    PowMonotone(2, i + 1, 32);
    PowPositive(2, i);
    AndBelow(x, Not(Pow(2, i), 32), 32);
    assert forall j: nat :: Bit(And(x, Not(Pow(2, i), 32)), j) <==> j != i && Bit(x, j) by {
      forall j: nat ensures Bit(And(x, Not(Pow(2, i), 32)), j) <==> j != i && Bit(x, j) {
        BitAnd(x, Not(Pow(2, i), 32), j);
        BitOfNot(Pow(2, i), 32, j);
        BitOfPow(i, j);
        if Bit(x, j) { BitsBelow(x, 32, j); }
      }
    }
    And(x, Not(Pow(2, i), 32))
  }

  /** x & (~0 << s) */
  function KeepFrom(x: Word, s: nat): (y: Word)
    requires s <= 32
    ensures forall j: nat :: Bit(y, j) <==> s <= j && Bit(x, j)
  {
    Pow2Of32();
    AndBelow(x, From(s, 32), 32);
    assert forall j: nat :: Bit(And(x, From(s, 32)), j) <==> s <= j && Bit(x, j) by {
      forall j: nat ensures Bit(And(x, From(s, 32)), j) <==> s <= j && Bit(x, j) {
        BitAnd(x, From(s, 32), j);
        BitOfFrom(s, 32, j);
        if Bit(x, j) { BitsBelow(x, 32, j); }
      }
    }
    And(x, From(s, 32))
  }

  lemma ZeroIffNoBits(x: Word)
    ensures x == 0 <==> forall j: nat :: !Bit(x, j)
  {
    if x == 0 {
      forall j: nat ensures !Bit(x, j) { BitZero(j); }
    } else {
      var i := SomeBit(x);
      assert exists j: nat :: j == i && Bit(x, j);
    }
  }

  // ---- the allocator's bit searches ----

  /** The 256-entry table of floor(log2), with -1 for 0. */
  function Table(i: nat): int
    requires i < 256
  {
    if i == 0 then -1 else if i < 2 then 0 else if i < 4 then 1 else if i < 8 then 2 else if i < 16 then 3
    else if i < 32 then 4 else if i < 64 then 5 else if i < 128 then 6 else 7
  }

  /** Table lookup in the highest nonzero byte. */
  function HighBit(x: Word): int {
    if x <= 0xff then Table(x)
    else if x <= 0xffff then Table(x / 0x100) + 8
    else if x <= 0xffffff then Table(x / 0x1_0000) + 16
    else Table(x / 0x100_0000) + 24
  }

  /** Index of the most significant set bit. */
  function MsBit(x: Word): int {
    HighBit(x)
  }

  /** Index of the least significant set bit; -1 for 0. */
  function LsBit(x: Word): int {
    Pow2Of32();
    AndBelow(x, TWO32 - x, 32);
    HighBit(And(x, TWO32 - x))
  }

  lemma SmallPowers()
    ensures Pow(2, 0) == 1 && Pow(2, 1) == 2 && Pow(2, 2) == 4 && Pow(2, 3) == 8 && Pow(2, 4) == 16
    ensures Pow(2, 5) == 32 && Pow(2, 6) == 64 && Pow(2, 7) == 128 && Pow(2, 8) == 256
  {
  }

  lemma ShiftedPower(n: nat, k: nat)
    requires k == 0 || k == 8 || k == 16 || k == 24
    ensures Pow(2, n + k) == Pow(2, n) * (if k == 0 then 1 else if k == 8 then 0x100 else if k == 16 then 0x1_0000 else 0x100_0000)
  {
    PowAdd(2, n, k);
    PowAdd(2, 8, 8);
    PowAdd(2, 16, 8);
    SmallPowers();
  }

  lemma TableIsLog(i: nat)
    requires 0 < i < 256
    ensures 0 <= Table(i) < 8 && Pow(2, Table(i)) <= i < Pow(2, Table(i) + 1)
  {
    SmallPowers();
  }

  lemma ByteLog(x: nat, b: nat, n: int, k: nat)
    requires 0 <= n < 8 && Pow(2, n) <= b < Pow(2, n + 1)
    requires k == 0 || k == 8 || k == 16 || k == 24
    requires b == x / (if k == 0 then 1 else if k == 8 then 0x100 else if k == 16 then 0x1_0000 else 0x100_0000)
    ensures Pow(2, n + k) <= x < Pow(2, n + k + 1)
  {
    ShiftedPower(n, k);
    ShiftedPower(n + 1, k);
  }

  lemma HighBitIsLog(x: Word)
    requires x > 0
    ensures 0 <= HighBit(x) < 32
    ensures Pow(2, HighBit(x)) <= x < Pow(2, HighBit(x) + 1)
  {
    if x <= 0xff {
      TableIsLog(x);
    } else if x <= 0xffff {
      TableIsLog(x / 0x100);
      ByteLog(x, x / 0x100, Table(x / 0x100), 8);
    } else if x <= 0xffffff {
      TableIsLog(x / 0x1_0000);
      ByteLog(x, x / 0x1_0000, Table(x / 0x1_0000), 16);
    } else {
      TableIsLog(x / 0x100_0000);
      ByteLog(x, x / 0x100_0000, Table(x / 0x100_0000), 24);
    }
  }

  lemma LogUnique(x: nat, a: nat, b: nat)
    requires Pow(2, a) <= x < Pow(2, a + 1) && Pow(2, b) <= x < Pow(2, b + 1)
    ensures a == b
  {
    if a < b { PowMonotone(2, a + 1, b); }
    if b < a { PowMonotone(2, b + 1, a); }
  }

  /** ls_bit finds the least significant bit: a free list search takes the smallest class. */
  lemma LsBitIsLowest(x: Word)
    ensures x == 0 ==> LsBit(x) == -1
    ensures x > 0 ==> 0 <= LsBit(x) < 32 && Bit(x, LsBit(x)) && forall j: nat :: j < LsBit(x) ==> !Bit(x, j)
  {
    Pow2Of32();
    if x > 0 {
      var i := LowestBit(x, 32);
      PowPositive(2, i);
      AndBelow(x, TWO32 - x, 32);
      HighBitIsLog(And(x, TWO32 - x));
      PowMonotone(2, i, i + 1);
      assert Pow(2, i + 1) == 2 * Pow(2, i);
      LogUnique(Pow(2, i), HighBit(Pow(2, i)), i);
    }
  }

  // ---- the low bits of words ----

  lemma AndParts(x: nat, y: nat)
    ensures And(x, y) / 2 == And(x / 2, y / 2)
    ensures And(x, y) % 2 == 1 <==> x % 2 == 1 && y % 2 == 1
  {
    if x == 0 || y == 0 { assert And(x / 2, y / 2) == 0; }
  }

  lemma XorParts(x: nat, y: nat)
    ensures Xor(x, y) / 2 == Xor(x / 2, y / 2)
    ensures Xor(x, y) % 2 == 1 <==> x % 2 != y % 2
  {
  }

  lemma TwoParts(x: nat)
    ensures x == 2 * (x / 2) + x % 2
  {
  }

  lemma LowHalves(x: nat, n: nat)
    requires n > 0
    ensures Pow(2, n) > 0 && Pow(2, n - 1) > 0
    ensures (x % Pow(2, n)) / 2 == x / 2 % Pow(2, n - 1) && x % Pow(2, n) % 2 == x % 2
  {
    PowPositive(2, n - 1);
    PowPositive(2, n);
    LowHalvesBy(x, Pow(2, n - 1));
  }

  lemma LowHalvesBy(x: nat, p: nat)
    requires p > 0
    ensures (x % (2 * p)) / 2 == x / 2 % p && x % (2 * p) % 2 == x % 2
  {
    var y := x / 2;
    TwoParts(x);
    assert y == p * (y / p) + y % p;
    QuotientUnique(x, 2 * p, y / p, x % 2 + 2 * (y % p));
  }

  /** The low bits of a result depend only on the low bits of the operands. */
  lemma {:induction false} LowOfAnd(x: nat, y: nat, n: nat)
    ensures Pow(2, n) > 0 && And(x, y) % Pow(2, n) == And(x % Pow(2, n), y % Pow(2, n))
  {
    hide And;
    PowPositive(2, n);
    if n == 0 {
      ModOne(x, y);
    } else {
      LowOfAnd(x / 2, y / 2, n - 1);
      LowHalves(x, n);
      LowHalves(y, n);
      LowHalves(And(x, y), n);
      AndParts(x, y);
      AndParts(x % Pow(2, n), y % Pow(2, n));
      TwoParts(And(x, y) % Pow(2, n));
      TwoParts(And(x % Pow(2, n), y % Pow(2, n)));
    }
  }

  lemma ModOne(x: nat, y: nat)
    ensures And(x, y) % 1 == And(x % 1, y % 1) && Or(x, y) % 1 == Or(x % 1, y % 1) && Xor(x, y) % 1 == Xor(x % 1, y % 1)
  {
    assert x % 1 == 0 && y % 1 == 0;
  }

  lemma {:induction false} LowOfOr(x: nat, y: nat, n: nat)
    ensures Pow(2, n) > 0 && Or(x, y) % Pow(2, n) == Or(x % Pow(2, n), y % Pow(2, n))
  {
    hide Or;
    PowPositive(2, n);
    if n == 0 {
      ModOne(x, y);
    } else {
      LowOfOr(x / 2, y / 2, n - 1);
      LowHalves(x, n);
      LowHalves(y, n);
      LowHalves(Or(x, y), n);
      OrParts(x, y);
      OrParts(x % Pow(2, n), y % Pow(2, n));
      TwoParts(Or(x, y) % Pow(2, n));
      TwoParts(Or(x % Pow(2, n), y % Pow(2, n)));
    }
  }

  lemma {:induction false} LowOfXor(x: nat, y: nat, n: nat)
    ensures Pow(2, n) > 0 && Xor(x, y) % Pow(2, n) == Xor(x % Pow(2, n), y % Pow(2, n))
  {
    hide Xor;
    PowPositive(2, n);
    if n == 0 {
      ModOne(x, y);
    } else {
      LowOfXor(x / 2, y / 2, n - 1);
      LowHalves(x, n);
      LowHalves(y, n);
      LowHalves(Xor(x, y), n);
      XorParts(x, y);
      XorParts(x % Pow(2, n), y % Pow(2, n));
      TwoParts(Xor(x, y) % Pow(2, n));
      TwoParts(Xor(x % Pow(2, n), y % Pow(2, n)));
    }
  }

  lemma {:induction false} XorBelow(x: nat, y: nat, n: nat)
    requires x < Pow(2, n) && y < Pow(2, n)
    ensures Xor(x, y) < Pow(2, n)
    decreases n
  {
    if x != 0 || y != 0 {
      assert Pow(2, n) == 2 * Pow(2, n - 1);
      XorBelow(x / 2, y / 2, n - 1);
    }
  }

  /** Masking the low bits of a word. */
  lemma {:induction false} MaskIsMod(n: nat, x: nat)
    ensures Pow(2, n) > 0 && And(Pow(2, n) - 1, x) == x % Pow(2, n)
  {
    hide And;
    PowPositive(2, n);
    if n == 0 {
      AndZero(x);
    } else {
      MaskIsMod(n - 1, x / 2);
      LowHalves(x, n);
      var p, m := Pow(2, n - 1), Pow(2, n) - 1;
      assert m == 2 * p - 1;
      hide Pow;
      MaskHalf(p);
      AndParts(m, x);
      TwoParts(And(m, x));
      TwoParts(x % Pow(2, n));
    }
  }

  lemma MaskHalf(p: nat)
    requires p > 0
    ensures (2 * p - 1) / 2 == p - 1 && (2 * p - 1) % 2 == 1
  {
  }

  lemma AndZero(x: nat)
    ensures And(0, x) == 0 && x % 1 == 0
  {
  }

  /** Or of numbers without common bits. */
  lemma {:induction false} OrDisjoint(a: nat, n: nat, b: nat)
    requires b < Pow(2, n)
    ensures Or(a * Pow(2, n), b) == a * Pow(2, n) + b
    decreases n
  {
    hide Or;
    if n == 0 {
      OrZero(a);
    } else {
      var p := Pow(2, n - 1);
      assert a * Pow(2, n) == 2 * (a * p);
      OrDisjoint(a, n - 1, b / 2);
      TwoParts(b);
      OrTwice(a * p, b);
    }
  }

  lemma OrTwice(x: nat, b: nat)
    ensures Or(2 * x, b) == 2 * Or(x, b / 2) + b % 2
  {
    OrParts(2 * x, b);
  }

  lemma {:induction false} OrZero(a: nat)
    ensures Or(a, 0) == a
  {
    if a > 0 { OrZero(a / 2); }
  }

  lemma {:induction false} OrCommutes(a: nat, b: nat)
    ensures Or(a, b) == Or(b, a)
    decreases a
  {
    hide Or;
    OrParts(a, b);
    OrParts(b, a);
    if a == 0 {
      OrZero(b);
      OrFromZero(b);
    } else {
      OrCommutes(a / 2, b / 2);
      TwoParts(Or(a, b));
      TwoParts(Or(b, a));
    }
  }

  lemma {:induction false} OrFromZero(b: nat)
    ensures Or(0, b) == b
  {
    if b > 0 { OrFromZero(b / 2); }
  }
}
