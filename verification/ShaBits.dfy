/** The functions of SHA-256 bit by bit: section 4.1.2 of FIPS 180-2, and the operations of its section 3.2. */
module ShaBits {
  import opened Radix
  import opened Bits
  import opened Sha256s

  lemma {:induction false} BitShr(x: nat, n: nat, i: nat)
    ensures Pow(2, n) > 0 && (Bit(x / Pow(2, n), i) <==> Bit(x, i + n))
    decreases n
  {
    PowPositive(2, n);
    if n > 0 {
      var p := Pow(2, n - 1);
      BitShr(x / 2, n - 1, i);
      DivTwice(x, 2, p);
    }
  }

  lemma {:induction false} BitShl(x: nat, n: nat, i: nat)
    ensures Bit(x * Pow(2, n), i) <==> i >= n && Bit(x, i - n)
    decreases n
  {
    if n > 0 {
      var y := x * Pow(2, n - 1);
      assert x * Pow(2, n) == 2 * y;
      if i > 0 {
        assert 2 * y / 2 == y;
        BitShl(x, n - 1, i - 1);
      }
    }
  }

  lemma {:induction false} BitMod(x: nat, n: nat, i: nat)
    ensures Pow(2, n) > 0 && (Bit(x % Pow(2, n), i) <==> i < n && Bit(x, i))
    decreases n
  {
    PowPositive(2, n);
    if n == 0 {
      BitZero(i);
    } else {
      LowHalves(x, n);
      if i > 0 { BitMod(x / 2, n - 1, i - 1); }
    }
  }

  lemma {:induction false} BitXor(x: nat, y: nat, i: nat)
    ensures Bit(Xor(x, y), i) <==> Bit(x, i) != Bit(y, i)
    decreases i
  {
    if x == 0 && y == 0 {
      BitZero(i);
    } else if i > 0 {
      BitXor(x / 2, y / 2, i - 1);
      assert Xor(x, y) / 2 == Xor(x / 2, y / 2);
    }
  }

  lemma WordBits(x: Word, i: nat)
    requires i >= 32
    ensures !Bit(x, i)
  {
    Pow2Of32();
    if Bit(x, i) { BitsBelow(x, 32, i); }
  }

  lemma ShrBit(x: Word, n: nat, i: nat)
    ensures Bit(ShrWord(x, n), i) <==> i + n < 32 && Bit(x, i + n)
  {
    BitShr(x, n, i);
    if i + n >= 32 { WordBits(x, i + n); }
    hide Bit, Pow;
  }

  /** A rotation moves each bit by n places, around the end. */
  lemma RotrBit(x: Word, n: nat, i: nat)
    requires 0 < n < 32 && i < 32
    ensures Bit(Rotr(x, n), i) <==> Bit(x, (i + n) % 32)
  {
    hide Bit, Or, Pow, ShrWord;
    var y := x * Pow(2, 32 - n);
    ShrBit(x, n, i);
    BitOr(ShrWord(x, n), y % TWO32, i);
    Pow2Of32();
    BitMod(y, 32, i);
    BitShl(x, 32 - n, i);
    assert (i + n) % 32 == if i + n < 32 then i + n else i + n - 32;
  }

  predicate Odd(a: bool, b: bool, c: bool) {
    a != (b != c)
  }

  lemma XorBit(x: Word, y: Word, z: Word, i: nat)
    ensures Bit(XorWord(XorWord(x, y), z), i) <==> Odd(Bit(x, i), Bit(y, i), Bit(z, i))
  {
    BitXor(x, y, i);
    BitXor(XorWord(x, y), z, i);
    hide Bit, Xor;
  }

  /** Bits 2, 13 and 22 further on, around the end; and so on for the others */
  lemma BigSigma0Bit(x: Word, i: nat)
    requires i < 32
    ensures Bit(BigSigma0(x), i) <==> Odd(Bit(x, (i + 2) % 32), Bit(x, (i + 13) % 32), Bit(x, (i + 22) % 32))
  {
    hide Bit, Rotr;
    RotrBit(x, 2, i);
    RotrBit(x, 13, i);
    RotrBit(x, 22, i);
    XorBit(Rotr(x, 2), Rotr(x, 13), Rotr(x, 22), i);
  }

  lemma BigSigma1Bit(x: Word, i: nat)
    requires i < 32
    ensures Bit(BigSigma1(x), i) <==> Odd(Bit(x, (i + 6) % 32), Bit(x, (i + 11) % 32), Bit(x, (i + 25) % 32))
  {
    hide Bit, Rotr;
    RotrBit(x, 6, i);
    RotrBit(x, 11, i);
    RotrBit(x, 25, i);
    XorBit(Rotr(x, 6), Rotr(x, 11), Rotr(x, 25), i);
  }

  lemma Sigma0Bit(x: Word, i: nat)
    requires i < 32
    ensures Bit(Sigma0(x), i) <==> Odd(Bit(x, (i + 7) % 32), Bit(x, (i + 18) % 32), i + 3 < 32 && Bit(x, i + 3))
  {
    ShrBit(x, 3, i);
    hide Bit, Rotr, ShrWord;
    RotrBit(x, 7, i);
    RotrBit(x, 18, i);
    XorBit(Rotr(x, 7), Rotr(x, 18), ShrWord(x, 3), i);
  }

  lemma Sigma1Bit(x: Word, i: nat)
    requires i < 32
    ensures Bit(Sigma1(x), i) <==> Odd(Bit(x, (i + 17) % 32), Bit(x, (i + 19) % 32), i + 10 < 32 && Bit(x, i + 10))
  {
    ShrBit(x, 10, i);
    hide Bit, Rotr, ShrWord;
    RotrBit(x, 17, i);
    RotrBit(x, 19, i);
    XorBit(Rotr(x, 17), Rotr(x, 19), ShrWord(x, 10), i);
  }

  /** Ch chooses between y and z by x. */
  lemma ChBit(x: Word, y: Word, z: Word, i: nat)
    requires i < 32
    ensures Bit(Ch(x, y, z), i) <==> if Bit(x, i) then Bit(y, i) else Bit(z, i)
  {
    Pow2Of32();
    BitXor(AndWord(x, y), AndWord(NotWord(x), z), i);
    BitAnd(x, y, i);
    BitAnd(NotWord(x), z, i);
    BitOfNot(x, 32, i);
    hide Bit, Xor, And, Pow;
  }

  /** Maj is what at least two have. */
  lemma MajBit(x: Word, y: Word, z: Word, i: nat)
    requires i < 32
    ensures Bit(Maj(x, y, z), i) <==>
      (Bit(x, i) && Bit(y, i)) || (Bit(x, i) && Bit(z, i)) || (Bit(y, i) && Bit(z, i))
  {
    BitAnd(x, y, i);
    BitAnd(x, z, i);
    BitAnd(y, z, i);
    hide Bit, And;
    XorBit(AndWord(x, y), AndWord(x, z), AndWord(y, z), i);
  }
}
