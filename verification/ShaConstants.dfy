/** Where the constants of SHA-256 come from: sections 4.2.2 and 5.3.2 of FIPS 180-2. */
module ShaConstants {
  import opened Radix
  import opened Sha256s

  // ---- primes ----

  ghost predicate IsPrime(n: nat) {
    n >= 2 && forall d :: 2 <= d < n ==> n % d != 0
  }

  /** q is the first prime after p. */
  ghost predicate Follows(p: nat, q: nat) {
    p < q && IsPrime(q) && forall m :: p < m < q ==> !IsPrime(m)
  }

  /** Below 19 squared, dividing by the primes up to 17 is enough. */
  predicate Sieved(n: nat) {
    n % 2 != 0 && n % 3 != 0 && n % 5 != 0 && n % 7 != 0 && n % 11 != 0 && n % 13 != 0 && n % 17 != 0
  }

  lemma SievedPrime(n: nat)
    requires 2 <= n < 361 && Sieved(n)
    ensures IsPrime(n)
  {
    forall d | 2 <= d < n ensures n % d != 0 {
      if n % d == 0 {
        var e := SmallDivisor(n, d, n / d);
        if e >= 19 { Wider(19, 19, e); Wider(e, 19, e); }
        SmallFactor(n, e);
      }
    }
  }

  /** The smaller one of two factors */
  lemma SmallDivisor(n: nat, d: nat, c: nat) returns (e: nat)
    requires 2 <= d < n && n == d * c
    ensures 2 <= e && e * e <= n && n % e == 0
  {
    NotOne(n, d, c);
    if d <= c {
      e := d;
      Wider(d, d, c);
      QuotientUnique(n, d, c, 0);
    } else {
      e := c;
      Wider(c, c, d);
      QuotientUnique(n, c, d, 0);
    }
  }

  lemma NotOne(n: nat, d: nat, c: nat)
    requires d < n == d * c
    ensures c >= 2
  {
    if c <= 1 { Wider(d, c, 1); }
  }

  lemma Wider(a: nat, b: nat, c: nat)
    requires b <= c
    ensures a * b <= a * c
  {
  }

  /** A divisor up to 18 has a prime factor up to 17. */
  lemma SmallFactor(n: nat, e: nat)
    requires 2 <= e < 19 && n % e == 0
    ensures !Sieved(n)
  {
    var a := if e % 2 == 0 then 2 else if e % 3 == 0 then 3 else e;
    FactorOf(n, e, a);
  }

  lemma FactorOf(n: nat, e: nat, a: nat)
    requires a > 0 && e > 0 && n % e == 0 && e % a == 0
    ensures n % a == 0
  {
    var k, h := n / e, e / a;
    assert n == e * k && e == a * h;
    assert n == a * (h * k);
    QuotientUnique(n, a, h * k, 0);
  }

  predicate Composite(m: nat, f: nat) {
    2 <= f < m && m % f == 0
  }

  /** The odd numbers between p and q have these factors. */
  lemma Next(p: nat, q: nat, a: nat := 0, b: nat := 0, c: nat := 0, d: nat := 0, e: nat := 0, f: nat := 0)
    requires p % 2 == 1 && p > 1 && p < q <= p + 14 && q % 2 == 1 && IsPrime(q)
    requires q <= p + 2 || Composite(p + 2, a)
    requires q <= p + 4 || Composite(p + 4, b)
    requires q <= p + 6 || Composite(p + 6, c)
    requires q <= p + 8 || Composite(p + 8, d)
    requires q <= p + 10 || Composite(p + 10, e)
    requires q <= p + 12 || Composite(p + 12, f)
    ensures Follows(p, q)
  {
    hide IsPrime, Composite;
    forall m | p < m < q ensures !IsPrime(m) {
      if m % 2 == 0 {
        EvenNotPrime(m);
      } else {
        assert m == p + 2 || m == p + 4 || m == p + 6 || m == p + 8 || m == p + 10 || m == p + 12;
        NotPrime(m, if m == p + 2 then a else if m == p + 4 then b else if m == p + 6 then c else if m == p + 8 then d
                    else if m == p + 10 then e else f);
      }
    }
  }

  lemma EvenNotPrime(m: nat)
    requires m > 2 && m % 2 == 0
    ensures !IsPrime(m)
  {
  }

  lemma NextSieved(p: nat, q: nat, a: nat := 0, b: nat := 0, c: nat := 0, d: nat := 0, e: nat := 0, f: nat := 0)
    requires p % 2 == 1 && p > 1 && p < q <= p + 14 && q < 361 && Sieved(q)
    requires q <= p + 2 || Composite(p + 2, a)
    requires q <= p + 4 || Composite(p + 4, b)
    requires q <= p + 6 || Composite(p + 6, c)
    requires q <= p + 8 || Composite(p + 8, d)
    requires q <= p + 10 || Composite(p + 10, e)
    requires q <= p + 12 || Composite(p + 12, f)
    ensures Follows(p, q)
  {
    SievedPrime(q);
    hide IsPrime;
    Next(p, q, a, b, c, d, e, f);
  }

  lemma NotPrime(m: nat, f: nat)
    requires Composite(m, f)
    ensures !IsPrime(m)
  {
  }

  /** Eight to a row, as the constants of the rounds */
  const PRIMES: seq<seq<nat>> := [
    [2, 3, 5, 7, 11, 13, 17, 19],
    [23, 29, 31, 37, 41, 43, 47, 53],
    [59, 61, 67, 71, 73, 79, 83, 89],
    [97, 101, 103, 107, 109, 113, 127, 131],
    [137, 139, 149, 151, 157, 163, 167, 173],
    [179, 181, 191, 193, 197, 199, 211, 223],
    [227, 229, 233, 239, 241, 251, 257, 263],
    [269, 271, 277, 281, 283, 293, 307, 311]
  ]

  function Prime(t: nat): nat
    requires t < 64
  {
    PRIMES[t / 8][t % 8]
  }

  lemma Primes0()
    ensures Follows(1, 2) && forall i :: 0 <= i < 7 ==> Follows(PRIMES[0][i], PRIMES[0][i + 1])
  {
    assert Follows(2, 3);
    Next(3, 5);
    Next(5, 7);
    Next(7, 11, 3);
    Next(11, 13);
    Next(13, 17, 3);
    NextSieved(17, 19);
  }

  lemma Primes1()
    ensures Follows(PRIMES[0][7], PRIMES[1][0]) && forall i :: 0 <= i < 7 ==> Follows(PRIMES[1][i], PRIMES[1][i + 1])
  {
    hide Follows, IsPrime;
    NextSieved(19, 23, 3);
    NextSieved(23, 29, 5, 3);
    NextSieved(29, 31);
    NextSieved(31, 37, 3, 5);
    NextSieved(37, 41, 3);
    NextSieved(41, 43);
    NextSieved(43, 47, 3);
    NextSieved(47, 53, 7, 3);
  }

  lemma Primes2()
    ensures Follows(PRIMES[1][7], PRIMES[2][0]) && forall i :: 0 <= i < 7 ==> Follows(PRIMES[2][i], PRIMES[2][i + 1])
  {
    hide Follows, IsPrime;
    NextSieved(53, 59, 5, 3);
    NextSieved(59, 61);
    NextSieved(61, 67, 3, 5);
    NextSieved(67, 71, 3);
    NextSieved(71, 73);
    NextSieved(73, 79, 3, 7);
    NextSieved(79, 83, 3);
    NextSieved(83, 89, 5, 3);
  }

  lemma Primes3()
    ensures Follows(PRIMES[2][7], PRIMES[3][0]) && forall i :: 0 <= i < 7 ==> Follows(PRIMES[3][i], PRIMES[3][i + 1])
  {
    hide Follows, IsPrime;
    NextSieved(89, 97, 7, 3, 5);
    NextSieved(97, 101, 3);
    NextSieved(101, 103);
    NextSieved(103, 107, 3);
    NextSieved(107, 109);
    NextSieved(109, 113, 3);
    NextSieved(113, 127, 5, 3, 7, 11, 3, 5);
    NextSieved(127, 131, 3);
  }

  lemma Primes4()
    ensures Follows(PRIMES[3][7], PRIMES[4][0]) && forall i :: 0 <= i < 7 ==> Follows(PRIMES[4][i], PRIMES[4][i + 1])
  {
    hide Follows, IsPrime;
    NextSieved(131, 137, 7, 3);
    NextSieved(137, 139);
    NextSieved(139, 149, 3, 11, 5, 3);
    NextSieved(149, 151);
    NextSieved(151, 157, 3, 5);
    NextSieved(157, 163, 3, 7);
    NextSieved(163, 167, 3);
    NextSieved(167, 173, 13, 3);
  }

  lemma Primes5()
    ensures Follows(PRIMES[4][7], PRIMES[5][0]) && forall i :: 0 <= i < 7 ==> Follows(PRIMES[5][i], PRIMES[5][i + 1])
  {
    hide Follows, IsPrime;
    NextSieved(173, 179, 5, 3);
    NextSieved(179, 181);
    NextSieved(181, 191, 3, 5, 11, 3);
    NextSieved(191, 193);
    NextSieved(193, 197, 3);
    NextSieved(197, 199);
    NextSieved(199, 211, 3, 7, 5, 3, 11);
    NextSieved(211, 223, 3, 5, 7, 3, 13);
  }

  lemma Primes6()
    ensures Follows(PRIMES[5][7], PRIMES[6][0]) && forall i :: 0 <= i < 7 ==> Follows(PRIMES[6][i], PRIMES[6][i + 1])
  {
    hide Follows, IsPrime;
    NextSieved(223, 227, 3);
    NextSieved(227, 229);
    NextSieved(229, 233, 3);
    NextSieved(233, 239, 5, 3);
    NextSieved(239, 241);
    NextSieved(241, 251, 3, 5, 13, 3);
    NextSieved(251, 257, 11, 3);
    NextSieved(257, 263, 7, 3);
  }

  lemma Primes7()
    ensures Follows(PRIMES[6][7], PRIMES[7][0]) && forall i :: 0 <= i < 7 ==> Follows(PRIMES[7][i], PRIMES[7][i + 1])
  {
    hide Follows, IsPrime;
    NextSieved(263, 269, 5, 3);
    NextSieved(269, 271);
    NextSieved(271, 277, 3, 5);
    NextSieved(277, 281, 3);
    NextSieved(281, 283);
    NextSieved(283, 293, 3, 7, 17, 3);
    NextSieved(293, 307, 5, 3, 13, 7, 3, 5);
    NextSieved(307, 311, 3);
  }

  lemma RowFollows(r: nat)
    requires r < 8
    ensures r > 0 ==> Follows(PRIMES[r - 1][7], PRIMES[r][0])
    ensures forall i :: 0 <= i < 7 ==> Follows(PRIMES[r][i], PRIMES[r][i + 1])
  {
    hide Follows;
    match r
    case 0 => Primes0();
    case 1 => Primes1();
    case 2 => Primes2();
    case 3 => Primes3();
    case 4 => Primes4();
    case 5 => Primes5();
    case 6 => Primes6();
    case 7 => Primes7();
  }

  /** These are the first 64 primes, in order. */
  lemma FirstPrimes()
    ensures Follows(1, Prime(0)) && forall t :: 0 <= t < 63 ==> Follows(Prime(t), Prime(t + 1))
  {
    Primes0();
    hide Follows;
    forall t | 0 <= t < 63 ensures Follows(Prime(t), Prime(t + 1)) {
      RowFollows(t / 8);
      RowFollows((t + 1) / 8);
      if t % 8 < 7 { assert (t + 1) / 8 == t / 8 && (t + 1) % 8 == t % 8 + 1; }
      else { assert (t + 1) / 8 == t / 8 + 1 && (t + 1) % 8 == 0; }
    }
  }

  // ---- roots ----

  const TWO96: nat := 0x1_0000_0000_0000_0000_0000_0000

  function Cube(x: nat): nat {
    x * x * x
  }

  /** k is the first 32 bits of the fraction of the cube root of p: the root, cut off after them, is q and k / 2^32. */
  ghost predicate FromCubeRoot(p: nat, k: Word) {
    exists q: nat :: Cube(q * TWO32 + k) <= p * TWO96 < Cube(q * TWO32 + k + 1)
  }

  function Square(x: nat): nat {
    x * x
  }

  ghost predicate FromSquareRoot(p: nat, k: Word) {
    exists q: nat :: Square(q * TWO32 + k) <= p * TWO64 < Square(q * TWO32 + k + 1)
  }

  lemma CubeRootIs(p: nat, q: nat, k: Word, r: nat)
    requires r == q * TWO32 + k && r * r * r <= p * TWO96 < (r + 1) * (r + 1) * (r + 1)
    ensures FromCubeRoot(p, k)
  {
    assert Cube(q * TWO32 + k) == r * r * r && Cube(q * TWO32 + k + 1) == (r + 1) * (r + 1) * (r + 1);
  }

  lemma SquareRootIs(p: nat, q: nat, k: Word, r: nat)
    requires r == q * TWO32 + k && r * r <= p * TWO64 < (r + 1) * (r + 1)
    ensures FromSquareRoot(p, k)
  {
    assert Square(q * TWO32 + k) == r * r && Square(q * TWO32 + k + 1) == (r + 1) * (r + 1);
  }

  lemma Roots0()
    ensures forall i :: 0 <= i < 8 ==> FromCubeRoot(PRIMES[0][i], K[0][i])
  {
    hide FromCubeRoot;
    CubeRootIs(2, 1, 0x428a2f98, 0x1428a2f98);
    CubeRootIs(3, 1, 0x71374491, 0x171374491);
    CubeRootIs(5, 1, 0xb5c0fbcf, 0x1b5c0fbcf);
    CubeRootIs(7, 1, 0xe9b5dba5, 0x1e9b5dba5);
    CubeRootIs(11, 2, 0x3956c25b, 0x23956c25b);
    CubeRootIs(13, 2, 0x59f111f1, 0x259f111f1);
    CubeRootIs(17, 2, 0x923f82a4, 0x2923f82a4);
    CubeRootIs(19, 2, 0xab1c5ed5, 0x2ab1c5ed5);
  }

  lemma Roots1()
    ensures forall i :: 0 <= i < 8 ==> FromCubeRoot(PRIMES[1][i], K[1][i])
  {
    hide FromCubeRoot;
    CubeRootIs(23, 2, 0xd807aa98, 0x2d807aa98);
    CubeRootIs(29, 3, 0x12835b01, 0x312835b01);
    CubeRootIs(31, 3, 0x243185be, 0x3243185be);
    CubeRootIs(37, 3, 0x550c7dc3, 0x3550c7dc3);
    CubeRootIs(41, 3, 0x72be5d74, 0x372be5d74);
    CubeRootIs(43, 3, 0x80deb1fe, 0x380deb1fe);
    CubeRootIs(47, 3, 0x9bdc06a7, 0x39bdc06a7);
    CubeRootIs(53, 3, 0xc19bf174, 0x3c19bf174);
  }

  lemma Roots2()
    ensures forall i :: 0 <= i < 8 ==> FromCubeRoot(PRIMES[2][i], K[2][i])
  {
    hide FromCubeRoot;
    CubeRootIs(59, 3, 0xe49b69c1, 0x3e49b69c1);
    CubeRootIs(61, 3, 0xefbe4786, 0x3efbe4786);
    CubeRootIs(67, 4, 0x0fc19dc6, 0x40fc19dc6);
    CubeRootIs(71, 4, 0x240ca1cc, 0x4240ca1cc);
    CubeRootIs(73, 4, 0x2de92c6f, 0x42de92c6f);
    CubeRootIs(79, 4, 0x4a7484aa, 0x44a7484aa);
    CubeRootIs(83, 4, 0x5cb0a9dc, 0x45cb0a9dc);
    CubeRootIs(89, 4, 0x76f988da, 0x476f988da);
  }

  lemma Roots3()
    ensures forall i :: 0 <= i < 8 ==> FromCubeRoot(PRIMES[3][i], K[3][i])
  {
    hide FromCubeRoot;
    CubeRootIs(97, 4, 0x983e5152, 0x4983e5152);
    CubeRootIs(101, 4, 0xa831c66d, 0x4a831c66d);
    CubeRootIs(103, 4, 0xb00327c8, 0x4b00327c8);
    CubeRootIs(107, 4, 0xbf597fc7, 0x4bf597fc7);
    CubeRootIs(109, 4, 0xc6e00bf3, 0x4c6e00bf3);
    CubeRootIs(113, 4, 0xd5a79147, 0x4d5a79147);
    CubeRootIs(127, 5, 0x06ca6351, 0x506ca6351);
    CubeRootIs(131, 5, 0x14292967, 0x514292967);
  }

  lemma Roots4()
    ensures forall i :: 0 <= i < 8 ==> FromCubeRoot(PRIMES[4][i], K[4][i])
  {
    hide FromCubeRoot;
    CubeRootIs(137, 5, 0x27b70a85, 0x527b70a85);
    CubeRootIs(139, 5, 0x2e1b2138, 0x52e1b2138);
    CubeRootIs(149, 5, 0x4d2c6dfc, 0x54d2c6dfc);
    CubeRootIs(151, 5, 0x53380d13, 0x553380d13);
    CubeRootIs(157, 5, 0x650a7354, 0x5650a7354);
    CubeRootIs(163, 5, 0x766a0abb, 0x5766a0abb);
    CubeRootIs(167, 5, 0x81c2c92e, 0x581c2c92e);
    CubeRootIs(173, 5, 0x92722c85, 0x592722c85);
  }

  lemma Roots5()
    ensures forall i :: 0 <= i < 8 ==> FromCubeRoot(PRIMES[5][i], K[5][i])
  {
    hide FromCubeRoot;
    CubeRootIs(179, 5, 0xa2bfe8a1, 0x5a2bfe8a1);
    CubeRootIs(181, 5, 0xa81a664b, 0x5a81a664b);
    CubeRootIs(191, 5, 0xc24b8b70, 0x5c24b8b70);
    CubeRootIs(193, 5, 0xc76c51a3, 0x5c76c51a3);
    CubeRootIs(197, 5, 0xd192e819, 0x5d192e819);
    CubeRootIs(199, 5, 0xd6990624, 0x5d6990624);
    CubeRootIs(211, 5, 0xf40e3585, 0x5f40e3585);
    CubeRootIs(223, 6, 0x106aa070, 0x6106aa070);
  }

  lemma Roots6()
    ensures forall i :: 0 <= i < 8 ==> FromCubeRoot(PRIMES[6][i], K[6][i])
  {
    hide FromCubeRoot;
    CubeRootIs(227, 6, 0x19a4c116, 0x619a4c116);
    CubeRootIs(229, 6, 0x1e376c08, 0x61e376c08);
    CubeRootIs(233, 6, 0x2748774c, 0x62748774c);
    CubeRootIs(239, 6, 0x34b0bcb5, 0x634b0bcb5);
    CubeRootIs(241, 6, 0x391c0cb3, 0x6391c0cb3);
    CubeRootIs(251, 6, 0x4ed8aa4a, 0x64ed8aa4a);
    CubeRootIs(257, 6, 0x5b9cca4f, 0x65b9cca4f);
    CubeRootIs(263, 6, 0x682e6ff3, 0x6682e6ff3);
  }

  lemma Roots7()
    ensures forall i :: 0 <= i < 8 ==> FromCubeRoot(PRIMES[7][i], K[7][i])
  {
    hide FromCubeRoot;
    CubeRootIs(269, 6, 0x748f82ee, 0x6748f82ee);
    CubeRootIs(271, 6, 0x78a5636f, 0x678a5636f);
    CubeRootIs(277, 6, 0x84c87814, 0x684c87814);
    CubeRootIs(281, 6, 0x8cc70208, 0x68cc70208);
    CubeRootIs(283, 6, 0x90befffa, 0x690befffa);
    CubeRootIs(293, 6, 0xa4506ceb, 0x6a4506ceb);
    CubeRootIs(307, 6, 0xbef9a3f7, 0x6bef9a3f7);
    CubeRootIs(311, 6, 0xc67178f2, 0x6c67178f2);
  }

  /** The constants of the rounds are the first 32 bits of the fractions of the cube roots of the first 64 primes. */
  lemma RoundConstants()
    ensures forall t :: 0 <= t < 64 ==> FromCubeRoot(Prime(t), Constant(t))
  {
    Roots0();
    Roots1();
    Roots2();
    Roots3();
    Roots4();
    Roots5();
    Roots6();
    Roots7();
    hide FromCubeRoot;
    forall t | 0 <= t < 64 ensures FromCubeRoot(Prime(t), Constant(t)) {
    }
  }

  /** The words the hash starts with are those of the square roots of the first eight. */
  lemma StartConstants()
    ensures forall i :: 0 <= i < 8 ==>
      FromSquareRoot(Prime(i), [START.a, START.b, START.c, START.d, START.e, START.f, START.g, START.h][i])
  {
    hide FromSquareRoot;
    SquareRootIs(2, 1, 0x6a09e667, 0x16a09e667);
    SquareRootIs(3, 1, 0xbb67ae85, 0x1bb67ae85);
    SquareRootIs(5, 2, 0x3c6ef372, 0x23c6ef372);
    SquareRootIs(7, 2, 0xa54ff53a, 0x2a54ff53a);
    SquareRootIs(11, 3, 0x510e527f, 0x3510e527f);
    SquareRootIs(13, 3, 0x9b05688c, 0x39b05688c);
    SquareRootIs(17, 4, 0x1f83d9ab, 0x41f83d9ab);
    SquareRootIs(19, 4, 0x5be0cd19, 0x45be0cd19);
  }
}
