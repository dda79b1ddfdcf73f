/** SHA-256 as the standard defines it, on 32-bit words, and what 64-bit words do to it. */
module Sha256s {
  import opened Radix
  import opened Bits

  type Byte = b: nat | b < 256

  const TWO64: nat := 0x1_0000_0000_0000_0000

  /** A 64-bit word, as unsigned long is */
  type Long = w: nat | w < TWO64

  // ---- the standard: sections 4.1.2, 4.2.2, 5.1.1, 5.3.2 and 6.2.2 of FIPS 180-2 ----

  /** Eight to a row, as the standard prints them */
  const K: seq<seq<Word>> := [
    [0x428a2f98, 0x71374491, 0xb5c0fbcf, 0xe9b5dba5, 0x3956c25b, 0x59f111f1, 0x923f82a4, 0xab1c5ed5],
    [0xd807aa98, 0x12835b01, 0x243185be, 0x550c7dc3, 0x72be5d74, 0x80deb1fe, 0x9bdc06a7, 0xc19bf174],
    [0xe49b69c1, 0xefbe4786, 0x0fc19dc6, 0x240ca1cc, 0x2de92c6f, 0x4a7484aa, 0x5cb0a9dc, 0x76f988da],
    [0x983e5152, 0xa831c66d, 0xb00327c8, 0xbf597fc7, 0xc6e00bf3, 0xd5a79147, 0x06ca6351, 0x14292967],
    [0x27b70a85, 0x2e1b2138, 0x4d2c6dfc, 0x53380d13, 0x650a7354, 0x766a0abb, 0x81c2c92e, 0x92722c85],
    [0xa2bfe8a1, 0xa81a664b, 0xc24b8b70, 0xc76c51a3, 0xd192e819, 0xd6990624, 0xf40e3585, 0x106aa070],
    [0x19a4c116, 0x1e376c08, 0x2748774c, 0x34b0bcb5, 0x391c0cb3, 0x4ed8aa4a, 0x5b9cca4f, 0x682e6ff3],
    [0x748f82ee, 0x78a5636f, 0x84c87814, 0x8cc70208, 0x90befffa, 0xa4506ceb, 0xbef9a3f7, 0xc67178f2]
  ]

  function Constant(t: nat): Word
    requires t < 64
  {
    K[t / 8][t % 8]
  }

  /** The eight words of a hash value, or the working variables a to h */
  datatype Regs = Regs(a: Word, b: Word, c: Word, d: Word, e: Word, f: Word, g: Word, h: Word)

  const START: Regs := Regs(0x6a09e667, 0xbb67ae85, 0x3c6ef372, 0xa54ff53a, 0x510e527f, 0x9b05688c, 0x1f83d9ab, 0x5be0cd19)

  function Plus(x: Word, y: Word): Word {
    (x + y) % TWO32
  }

  function ShrWord(x: Word, n: nat): (y: Word) {
    PowPositive(2, n);
    QuotientNat(x, Pow(2, n));
    DivAtMost(x, Pow(2, n));
    x / Pow(2, n)
  }

  function OrWord(x: Word, y: Word): Word {
    Pow2Of32();
    OrBelow(x, y, 32);
    Or(x, y)
  }

  function AndWord(x: Word, y: Word): Word {
    Pow2Of32();
    AndBelow(x, y, 32);
    And(x, y)
  }

  function XorWord(x: Word, y: Word): Word {
    Pow2Of32();
    XorBelow(x, y, 32);
    Xor(x, y)
  }

  function NotWord(x: Word): Word {
    TWO32 - 1 - x
  }

  function Rotr(x: Word, n: nat): Word
    requires 0 < n < 32
  {
    OrWord(ShrWord(x, n), (x * Pow(2, 32 - n)) % TWO32)
  }

  function Ch(x: Word, y: Word, z: Word): Word {
    XorWord(AndWord(x, y), AndWord(NotWord(x), z))
  }

  function Maj(x: Word, y: Word, z: Word): Word {
    XorWord(XorWord(AndWord(x, y), AndWord(x, z)), AndWord(y, z))
  }

  function BigSigma0(x: Word): Word {
    XorWord(XorWord(Rotr(x, 2), Rotr(x, 13)), Rotr(x, 22))
  }

  function BigSigma1(x: Word): Word {
    XorWord(XorWord(Rotr(x, 6), Rotr(x, 11)), Rotr(x, 25))
  }

  function Sigma0(x: Word): Word {
    XorWord(XorWord(Rotr(x, 7), Rotr(x, 18)), ShrWord(x, 3))
  }

  function Sigma1(x: Word): Word {
    XorWord(XorWord(Rotr(x, 17), Rotr(x, 19)), ShrWord(x, 10))
  }

  /** A word from its bytes, most significant first */
  function FromBytes(a: nat, b: nat, c: nat, d: nat): Word
    requires a < 256 && b < 256 && c < 256 && d < 256
  {
    a * 0x100_0000 + b * 0x1_0000 + c * 0x100 + d
  }

  function WordAt(block: seq<Byte>, t: nat): Word
    requires |block| == 64 && t < 16
  {
    FromBytes(block[4 * t], block[4 * t + 1], block[4 * t + 2], block[4 * t + 3])
  }

  /** The message schedule */
  function Schedule(block: seq<Byte>, t: nat): Word
    requires |block| == 64
  {
    if t < 16 then WordAt(block, t)
    else
      Plus(Plus(Plus(Sigma1(Schedule(block, t - 2)), Schedule(block, t - 7)), Sigma0(Schedule(block, t - 15))), Schedule(block, t - 16))
  }

  function Round(r: Regs, k: Word, w: Word): Regs {
    var t1 := Plus(Plus(Plus(Plus(r.h, BigSigma1(r.e)), Ch(r.e, r.f, r.g)), k), w);
    var t2 := Plus(BigSigma0(r.a), Maj(r.a, r.b, r.c));
    Regs(Plus(t1, t2), r.a, r.b, r.c, Plus(r.d, t1), r.e, r.f, r.g)
  }

  function Rounds(r: Regs, block: seq<Byte>, t: nat): Regs
    requires |block| == 64 && t <= 64
  {
    if t == 0 then r else Round(Rounds(r, block, t - 1), Constant(t - 1), Schedule(block, t - 1))
  }

  function Compress(r: Regs, block: seq<Byte>): Regs
    requires |block| == 64
  {
    var s := Rounds(r, block, 64);
    Regs(Plus(r.a, s.a), Plus(r.b, s.b), Plus(r.c, s.c), Plus(r.d, s.d), Plus(r.e, s.e), Plus(r.f, s.f), Plus(r.g, s.g), Plus(r.h, s.h))
  }

  /** The hash value after the blocks of a padded message */
  function Hash(m: seq<Byte>): Regs
    requires |m| % 64 == 0
  {
    if |m| == 0 then START else Compress(Hash(m[..|m| - 64]), m[|m| - 64..])
  }

  function Zeros(n: nat): (z: seq<Byte>)
    ensures |z| == n && forall i :: 0 <= i < n ==> z[i] == 0
  {
    seq(n, (i: nat) => 0)
  }

  /** The four bytes of a word, most significant first */
  function BytesOf(w: Word): seq<Byte> {
    [w / 0x100_0000, w / 0x1_0000 % 0x100, w / 0x100 % 0x100, w % 0x100]
  }

  /** The length of a message in bits, as eight bytes */
  function LengthBytes(n: nat): (s: seq<Byte>)
    ensures |s| == 8
  {
    BytesOf(8 * n / TWO32 % TWO32) + BytesOf(8 * n % TWO32)
  }

  /** The least number of zero bytes after which eight bytes are left in a block */
  function Filler(n: nat): (k: nat)
    ensures k < 64 && (n + 1 + k) % 64 == 56
  {
    if n % 64 < 56 then 55 - n % 64 else 119 - n % 64
  }

  lemma PaddedLength(n: nat)
    ensures (n + 1 + Filler(n) + 8) % 64 == 0
  {
  }

  /** The message padded, with n for its length */
  function PaddedAs(m: seq<Byte>, n: nat): (p: seq<Byte>)
    ensures |p| % 64 == 0
  {
    PaddedLength(|m|);
    m + [0x80] + Zeros(Filler(|m|)) + LengthBytes(n)
  }

  function Padded(m: seq<Byte>): seq<Byte> {
    PaddedAs(m, |m|)
  }

  function Digest(r: Regs): seq<Byte> {
    BytesOf(r.a) + BytesOf(r.b) + BytesOf(r.c) + BytesOf(r.d) + BytesOf(r.e) + BytesOf(r.f) + BytesOf(r.g) + BytesOf(r.h)
  }

  function Sha256(m: seq<Byte>): seq<Byte> {
    Digest(Hash(Padded(m)))
  }

  // ---- 64-bit words, whose low halves are the words of the standard ----

  function Low(x: nat): Word {
    x % TWO32
  }

  function Add(x: Long, y: Long): Long {
    (x + y) % TWO64
  }

  lemma LowOfMod(x: nat)
    ensures Low(x % TWO64) == Low(x)
  {
    assert x == TWO64 * (x / TWO64) + x % TWO64;
    var y := x % TWO64;
    assert y == TWO32 * (y / TWO32) + y % TWO32;
    QuotientUnique(x, TWO32, TWO32 * (x / TWO64) + y / TWO32, y % TWO32);
  }

  lemma LowAdd(x: Long, y: Long)
    ensures Low(Add(x, y)) == Plus(Low(x), Low(y))
  {
    LowOfMod(x + y);
    LowOfSum(x, y);
  }

  lemma LowOfSum(x: nat, y: nat)
    ensures (x + y) % TWO32 == (x % TWO32 + y % TWO32) % TWO32
  {
    var a, c, z := x / TWO32, y / TWO32, x % TWO32 + y % TWO32;
    assert x + y == TWO32 * (a + c) + z;
    assert z == TWO32 * (z / TWO32) + z % TWO32;
    QuotientUnique(x + y, TWO32, a + c + z / TWO32, z % TWO32);
  }

  lemma LowBits(x: Long, y: Long)
    ensures Low(Xor(x, y)) == XorWord(Low(x), Low(y)) && Low(And(x, y)) == AndWord(Low(x), Low(y))
    ensures Low(Or(x, y)) == OrWord(Low(x), Low(y))
  {
    hide Xor, And, Or;
    Pow2Of32();
    LowOfXor(x, y, 32);
    LowOfAnd(x, y, 32);
    LowOfOr(x, y, 32);
  }

  // ---- the operations of the code ----

  /** SHR: the low half, shifted */
  function Shr(x: Long, n: nat): Word {
    Pow2Of32();
    MaskIsMod(32, x);
    ShrWord(And(0xffff_ffff, x), n)
  }

  /** ROTR; what is shifted to the left goes into the high half as well */
  function WideRotr(x: Long, n: nat): Long
    requires 0 < n < 32
  {
    LongOr(Shr(x, n), (x * Pow(2, 32 - n)) % TWO64)
  }

  function LongOr(x: Long, y: Long): Long {
    Pow2Of64();
    OrBelow(x, y, 64);
    Or(x, y)
  }

  function LongXor(x: Long, y: Long): Long {
    Pow2Of64();
    XorBelow(x, y, 64);
    Xor(x, y)
  }

  function LongAnd(x: Long, y: Long): Long {
    Pow2Of64();
    AndBelow(x, y, 64);
    And(x, y)
  }

  lemma Pow2Of64()
    ensures Pow(2, 64) == TWO64
  {
    Pow2Of32();
    PowAdd(2, 32, 32);
  }

  function S0(x: Long): Long {
    LongXor(LongXor(WideRotr(x, 7), WideRotr(x, 18)), Shr(x, 3))
  }

  function S1(x: Long): Long {
    LongXor(LongXor(WideRotr(x, 17), WideRotr(x, 19)), Shr(x, 10))
  }

  function S2(x: Long): Long {
    LongXor(LongXor(WideRotr(x, 2), WideRotr(x, 13)), WideRotr(x, 22))
  }

  function S3(x: Long): Long {
    LongXor(LongXor(WideRotr(x, 6), WideRotr(x, 11)), WideRotr(x, 25))
  }

  function F0(x: Long, y: Long, z: Long): Long {
    LongOr(LongAnd(x, y), LongAnd(z, LongOr(x, y)))
  }

  function F1(x: Long, y: Long, z: Long): Long {
    LongXor(z, LongAnd(x, LongXor(y, z)))
  }

  lemma LowShr(x: Long, n: nat)
    ensures Shr(x, n) == ShrWord(Low(x), n) && Low(Shr(x, n)) == Shr(x, n)
  {
    hide And;
    Pow2Of32();
    MaskIsMod(32, x);
  }

  lemma LowRotr(x: Long, n: nat)
    requires 0 < n < 32
    ensures Low(WideRotr(x, n)) == Rotr(Low(x), n)
  {
    hide And, Or, Shr, ShrWord;
    LowShr(x, n);
    var q := Pow(2, 32 - n);
    hide Pow;
    LowBits(Shr(x, n), (x * q) % TWO64);
    LowOfMod(x * q);
    LowTimes(x, q);
  }

  lemma LowTimes(x: nat, q: nat)
    ensures Low(x * q) == (Low(x) * q) % TWO32
  {
    var a, b := x / TWO32, x % TWO32;
    assert x == TWO32 * a + b;
    var y := b * q;
    assert x * q == TWO32 * (a * q) + y;
    assert y == TWO32 * (y / TWO32) + y % TWO32;
    QuotientUnique(x * q, TWO32, a * q + y / TWO32, y % TWO32);
  }

  lemma LowXor3(x: Long, y: Long, z: Long)
    ensures Low(LongXor(LongXor(x, y), z)) == XorWord(XorWord(Low(x), Low(y)), Low(z))
  {
    hide Xor;
    LowBits(x, y);
    LowBits(LongXor(x, y), z);
  }

  lemma LowSigmas(x: Long)
    ensures Low(S0(x)) == Sigma0(Low(x)) && Low(S1(x)) == Sigma1(Low(x))
    ensures Low(S2(x)) == BigSigma0(Low(x)) && Low(S3(x)) == BigSigma1(Low(x))
  {
    hide LongXor, XorWord, WideRotr, Rotr, Shr, ShrWord, Low;
    LowRotr(x, 7);
    LowRotr(x, 18);
    LowShr(x, 3);
    LowXor3(WideRotr(x, 7), WideRotr(x, 18), Shr(x, 3));
    LowRotr(x, 17);
    LowRotr(x, 19);
    LowShr(x, 10);
    LowXor3(WideRotr(x, 17), WideRotr(x, 19), Shr(x, 10));
    LowRotr(x, 2);
    LowRotr(x, 13);
    LowRotr(x, 22);
    LowXor3(WideRotr(x, 2), WideRotr(x, 13), WideRotr(x, 22));
    LowRotr(x, 6);
    LowRotr(x, 11);
    LowRotr(x, 25);
    LowXor3(WideRotr(x, 6), WideRotr(x, 11), WideRotr(x, 25));
  }

  // ---- the code's forms of the two choices ----

  lemma {:induction false} MajForms(x: nat, y: nat, z: nat)
    ensures Or(And(x, y), And(z, Or(x, y))) == Xor(Xor(And(x, y), And(x, z)), And(y, z))
    decreases x + y + z
  {
    hide And, Or, Xor;
    var l, r := Or(And(x, y), And(z, Or(x, y))), Xor(Xor(And(x, y), And(x, z)), And(y, z));
    if x == 0 && y == 0 && z == 0 {
      AllZero();
    } else {
      MajForms(x / 2, y / 2, z / 2);
      AndParts(x, y);
      AndParts(x, z);
      AndParts(y, z);
      OrParts(x, y);
      AndParts(z, Or(x, y));
      OrParts(And(x, y), And(z, Or(x, y)));
      XorParts(And(x, y), And(x, z));
      XorParts(Xor(And(x, y), And(x, z)), And(y, z));
      TwoParts(l);
      TwoParts(r);
      assert l % 2 == r % 2;
    }
  }

  lemma AllZero()
    ensures And(0, 0) == 0 && Or(0, 0) == 0 && Xor(0, 0) == 0
  {
  }

  lemma {:induction false} ChForms(x: nat, y: nat, z: nat, n: nat)
    requires x < Pow(2, n) && y < Pow(2, n) && z < Pow(2, n)
    ensures Xor(z, And(x, Xor(y, z))) == Xor(And(x, y), And(Not(x, n), z))
  {
    hide And, Or, Xor;
    var l, r := Xor(z, And(x, Xor(y, z))), Xor(And(x, y), And(Not(x, n), z));
    if n == 0 {
      AllZero();
    } else {
      assert Pow(2, n) == 2 * Pow(2, n - 1);
      assert Not(x, n) / 2 == Not(x / 2, n - 1) && Not(x, n) % 2 != x % 2;
      ChForms(x / 2, y / 2, z / 2, n - 1);
      XorParts(y, z);
      AndParts(x, Xor(y, z));
      XorParts(z, And(x, Xor(y, z)));
      AndParts(x, y);
      AndParts(Not(x, n), z);
      XorParts(And(x, y), And(Not(x, n), z));
      TwoParts(l);
      TwoParts(r);
      assert l % 2 == r % 2;
    }
  }

  lemma LowF0(x: Long, y: Long, z: Long)
    ensures Low(F0(x, y, z)) == Maj(Low(x), Low(y), Low(z))
  {
    hide And, Or, Xor;
    LowBits(x, y);
    LowBits(z, LongOr(x, y));
    LowBits(LongAnd(x, y), LongAnd(z, LongOr(x, y)));
    MajForms(Low(x), Low(y), Low(z));
  }

  lemma LowF1(x: Long, y: Long, z: Long)
    ensures Low(F1(x, y, z)) == Ch(Low(x), Low(y), Low(z))
  {
    hide And, Or, Xor;
    LowBits(y, z);
    LowBits(x, LongXor(y, z));
    LowBits(z, LongAnd(x, LongXor(y, z)));
    Pow2Of32();
    ChForms(Low(x), Low(y), Low(z), 32);
  }
}
