/** Size classes of the two-level segregated fit allocator: which list a block of a given
    size belongs to, and from which list on every block is large enough for a request. */
module TlsfMap {
  import opened Radix
  import opened Bits

  const SMALL_BLOCK: nat := 128
  const MAX_LOG2_SLI: nat := 5
  const MAX_SLI: nat := 32
  const FLI_OFFSET: nat := 6
  const REAL_FLI: nat := 24
  /** Sizes at and above this have no list. */
  const MAX_SIZE: nat := 0x4000_0000

  /** First- and second-level index of a list. */
  datatype Class = Class(fl: nat, sl: nat)

  ghost predicate InMatrix(c: Class) {
    c.fl < REAL_FLI && c.sl < MAX_SLI
  }

  /** Lists in the order they are searched. */
  predicate NotBefore(c: Class, d: Class) {
    c.fl > d.fl || (c.fl == d.fl && c.sl >= d.sl)
  }

  /** The list for a free block of size s (MAPPING_INSERT). */
  function Insert(s: nat): Class
    requires s < MAX_SIZE
  {
    if s < SMALL_BLOCK then Class(0, s / (SMALL_BLOCK / MAX_SLI))
    else
      HighBitIsLog(s);
      LogRange(s);
      PowPositive(2, MsBit(s) - MAX_LOG2_SLI);
      SubIndex(s);
      Class(MsBit(s) - FLI_OFFSET, s / Pow(2, MsBit(s) - MAX_LOG2_SLI) - MAX_SLI)
  }

  /** Rounding added to a request before its list is looked up. */
  function Slack(s: nat): nat
    requires SMALL_BLOCK <= s < MAX_SIZE
  {
    HighBitIsLog(s);
    LogRange(s);
    PowPositive(2, MsBit(s) - MAX_LOG2_SLI);
    Pow(2, MsBit(s) - MAX_LOG2_SLI) - 1
  }

  /** The rounded request (MAPPING_SEARCH): s + t with the bits of t = 2^n - 1 cleared. */
  function Rounded(s: nat): nat
    requires s < MAX_SIZE
  {
    if s < SMALL_BLOCK then s
    else (s + Slack(s)) - (s + Slack(s)) % (Slack(s) + 1)
  }

  /** The first list searched for a request of size s (MAPPING_SEARCH). */
  function Search(s: nat): Class
    requires s < MAX_SIZE
  {
    if s < SMALL_BLOCK then Class(0, s / (SMALL_BLOCK / MAX_SLI))
    else
      var r1 := s + Slack(s);
      SlackSmall(s);
      HighBitIsLog(r1);
      LogRange(r1);
      PowPositive(2, MsBit(r1) - MAX_LOG2_SLI);
      SubIndex(r1);
      Class(MsBit(r1) - FLI_OFFSET, r1 / Pow(2, MsBit(r1) - MAX_LOG2_SLI) - MAX_SLI)
  }

  lemma LogRange(s: Word)
    requires SMALL_BLOCK <= s
    ensures 7 <= MsBit(s) < 32
    ensures s < MAX_SIZE ==> MsBit(s) < 30
    ensures s < 2 * MAX_SIZE ==> MsBit(s) < 31
  {
    HighBitIsLog(s);
    SmallPowers();
    if MsBit(s) < 7 { PowMonotone(2, MsBit(s) + 1, 7); }
    BigPowers();
    if MsBit(s) >= 30 { PowMonotone(2, 30, MsBit(s)); }
    if MsBit(s) >= 31 { PowMonotone(2, 31, MsBit(s)); }
  }

  lemma BigPowers()
    ensures Pow(2, 30) == MAX_SIZE && Pow(2, 31) == 2 * MAX_SIZE
  {
    Pow2Of32();
    assert Pow(2, 32) == 2 * Pow(2, 31) && Pow(2, 31) == 2 * Pow(2, 30);
  }

  /** A size of n + 1 bits is 32 to 63 units of 2^(n-5). */
  lemma Units(s: Word)
    requires SMALL_BLOCK <= s
    ensures MsBit(s) >= MAX_LOG2_SLI && Pow(2, MsBit(s) - MAX_LOG2_SLI) >= 4
    ensures var p := Pow(2, MsBit(s) - MAX_LOG2_SLI); MAX_SLI * p <= s < 2 * MAX_SLI * p
  {
    HighBitIsLog(s);
    LogRange(s);
    var n := MsBit(s) - MAX_LOG2_SLI;
    PowAdd(2, 5, n);
    PowAdd(2, 6, n);
    SmallPowers();
    PowMonotone(2, 2, n);
  }

  lemma SubIndex(s: Word)
    requires SMALL_BLOCK <= s
    ensures MsBit(s) >= MAX_LOG2_SLI && Pow(2, MsBit(s) - MAX_LOG2_SLI) > 0
    ensures MAX_SLI <= s / Pow(2, MsBit(s) - MAX_LOG2_SLI) < 2 * MAX_SLI
  {
    Units(s);
    UnitCount(s, Pow(2, MsBit(s) - MAX_LOG2_SLI));
  }

  lemma UnitCount(s: nat, p: nat)
    requires p > 0 && MAX_SLI * p <= s < 2 * MAX_SLI * p
    ensures MAX_SLI <= s / p < 2 * MAX_SLI
  {
    Between(s, p, s / p, s % p);
  }

  lemma Between(s: nat, p: nat, q: nat, e: nat)
    requires p > 0 && s == p * q + e && e < p && MAX_SLI * p <= s < 2 * MAX_SLI * p
    ensures MAX_SLI <= q < 2 * MAX_SLI
  {
    if q < MAX_SLI { MulMonotone(p, q + 1, MAX_SLI); }
    if q >= 2 * MAX_SLI { MulMonotone(p, 2 * MAX_SLI, q); }
  }

  lemma SlackSmall(s: nat)
    requires SMALL_BLOCK <= s < MAX_SIZE
    ensures Slack(s) < s && s + Slack(s) < 2 * MAX_SIZE
  {
    Units(s);
  }

  lemma RoundedClose(s: nat)
    requires s < MAX_SIZE
    ensures Rounded(s) <= s + s / 32
  {
    if s >= SMALL_BLOCK {
      Units(s);
      LogRange(s);
    }
  }

  // ---- the range of sizes of a list ----

  /** Smallest size whose list is c. */
  function ClassMin(c: Class): nat {
    if c.fl == 0 then c.sl * 4 else (MAX_SLI + c.sl) * Pow(2, c.fl + 1)
  }

  lemma InsertInMatrix(s: nat)
    requires s < MAX_SIZE
    ensures InMatrix(Insert(s))
  {
    if s >= SMALL_BLOCK {
      LogRange(s);
      SubIndex(s);
    }
  }

  /** A list holds sizes from its minimum up to, and not including, that of the next. */
  lemma ClassRange(s: nat)
    requires s < MAX_SIZE
    ensures ClassMin(Insert(s)) <= s
    ensures var c := Insert(s); s < ClassMin(Class(c.fl, c.sl + 1))
  {
    if s >= SMALL_BLOCK {
      LogRange(s);
      Units(s);
      SubIndex(s);
      UnitRange(s, Pow(2, MsBit(s) - MAX_LOG2_SLI));
    }
  }

  lemma UnitRange(s: nat, p: nat)
    requires p > 0
    ensures (s / p) * p <= s < (s / p + 1) * p
  {
    assert s == p * (s / p) + s % p;
  }

  lemma Scaled(a: nat, b: nat, p: nat)
    requires a <= b
    ensures a * p <= b * p
  {
    MulMonotone(p, a, b);
  }

  /** The order of lists is the order of their smallest sizes. */
  lemma ClassMinMonotone(c: Class, d: Class)
    requires InMatrix(d) && c.sl < MAX_SLI && NotBefore(c, d)
    ensures ClassMin(c) >= ClassMin(d)
  {
    hide Pow;
    if c.fl == d.fl {
      Scaled(MAX_SLI + d.sl, MAX_SLI + c.sl, Pow(2, c.fl + 1));
    } else {
      TopOfLevel(d, c.fl);
      Scaled(MAX_SLI, MAX_SLI + c.sl, Pow(2, c.fl + 1));
    }
  }

  lemma TopOfLevel(d: Class, fl: nat)
    requires InMatrix(d) && d.fl < fl
    ensures ClassMin(d) <= MAX_SLI * Pow(2, fl + 1)
  {
    hide Pow;
    SmallPowers();
    PowMonotone(2, 2, fl + 1);
    PowMonotone(2, d.fl + 2, fl + 1);
    PowTwice(d.fl + 1);
    Scaled(MAX_SLI + d.sl, 2 * MAX_SLI, Pow(2, d.fl + 1));
  }

  /** A larger block is never in an earlier list. */
  lemma InsertMonotone(s: nat, t: nat)
    requires s <= t < MAX_SIZE
    ensures NotBefore(Insert(t), Insert(s))
  {
    ClassRange(s);
    ClassRange(t);
    InsertInMatrix(s);
    InsertInMatrix(t);
    var c, e := Insert(s), Insert(t);
    if !NotBefore(e, c) {
      if e.sl + 1 < MAX_SLI {
        ClassMinMonotone(c, Class(e.fl, e.sl + 1));
      } else {
        LastOfLevel(e, c);
      }
    }
  }

  lemma LastOfLevel(e: Class, c: Class)
    requires InMatrix(e) && InMatrix(c) && e.sl == MAX_SLI - 1 && e.fl < c.fl
    ensures ClassMin(Class(e.fl, e.sl + 1)) <= ClassMin(c)
  {
    var x, y := Pow(2, e.fl + 1), Pow(2, c.fl + 1);
    PowMonotone(2, e.fl + 2, c.fl + 1);
    assert Pow(2, e.fl + 2) == 2 * x;
    PowMonotone(2, 2, c.fl + 1);
    assert Pow(2, 2) == 4;
    hide Pow;
    MulMonotone(y, MAX_SLI, MAX_SLI + c.sl);
    assert (MAX_SLI + c.sl) * y == y * (MAX_SLI + c.sl) >= MAX_SLI * y;
    assert (MAX_SLI + (e.sl + 1)) * x == 64 * x;
  }

  // ---- good fit ----

  /** In units of p = 2^(n-5): the request rounded up to whole units, at most 64 of them. */
  lemma RoundUnits(s: nat, p: nat)
    requires p > 0 && MAX_SLI * p <= s < 2 * MAX_SLI * p
    ensures var r1 := s + (p - 1);
      && r1 - r1 % p == (r1 / p) * p
      && MAX_SLI <= r1 / p <= 2 * MAX_SLI
      && s <= (r1 / p) * p < s + p
      && r1 < 2 * MAX_SLI * p + p
  {
    var r1 := s + (p - 1);
    RoundUnitsQ(s, p, r1, r1 / p, r1 % p);
  }

  lemma RoundUnitsQ(s: nat, p: nat, r1: nat, q: nat, e: nat)
    requires p > 0 && MAX_SLI * p <= s < 2 * MAX_SLI * p && r1 == s + p - 1 && r1 == p * q + e && e < p
    ensures r1 - e == q * p && MAX_SLI <= q <= 2 * MAX_SLI && s <= q * p < s + p
  {
    if q < MAX_SLI { MulMonotone(p, q + 1, MAX_SLI); }
    if q > 2 * MAX_SLI { MulMonotone(p, 2 * MAX_SLI + 1, q); }
  }

  /** The rounded request is the smallest size of the first list searched. */
  lemma RoundedIsClassMin(s: nat)
    requires s < MAX_SIZE && s % 4 == 0
    ensures Rounded(s) == ClassMin(Search(s))
    ensures InMatrix(Search(s)) || Rounded(s) == MAX_SIZE
    ensures s <= Rounded(s) <= MAX_SIZE
  {
    if s >= SMALL_BLOCK {
      Units(s);
      LogRange(s);
      SlackSmall(s);
      var n := MsBit(s);
      var p := Pow(2, n - MAX_LOG2_SLI);
      var r1 := s + Slack(s);
      RoundUnits(s, p);
      BigPowers();
      LogOfRounded(s, p, n, r1);
    }
  }

  /** Both in whole units: of 2^(n-5) for the rounded request, and of 2^(n'-5) for the list,
      where n' is the top bit of the increased request. */
  lemma SearchUnits(s: nat, p: nat, r1: Word)
    requires SMALL_BLOCK <= s < MAX_SIZE && p == Slack(s) + 1 && r1 == s + Slack(s)
    ensures Rounded(s) == (r1 / p) * p
    ensures MsBit(r1) >= 7 && Pow(2, MsBit(r1) - MAX_LOG2_SLI) > 0
    ensures Search(s).fl == MsBit(r1) - FLI_OFFSET && Search(s).sl < MAX_SLI
    ensures var p' := Pow(2, MsBit(r1) - MAX_LOG2_SLI); ClassMin(Search(s)) == (r1 / p') * p'
  {
    hide Pow, HighBit, Slack;
    LogRange(r1);
    SubIndex(r1);
    WholeUnits(r1, p);
  }

  lemma WholeUnits(x: nat, p: nat)
    requires p > 0
    ensures x - x % p == (x / p) * p
  {
    assert x == p * (x / p) + x % p;
  }

  /** Rounding may carry into the next power of two; then it yields exactly that power. */
  lemma LogOfRounded(s: nat, p: nat, n: nat, r1: Word)
    requires SMALL_BLOCK <= s < MAX_SIZE && n == MsBit(s) && 7 <= n < 30 && p == Pow(2, n - MAX_LOG2_SLI)
    requires r1 == s + Slack(s)
    requires p >= 4 && MAX_SLI * p <= s <= r1
    requires r1 < 2 * MAX_SLI * p + p && r1 < 2 * MAX_SIZE
    requires MAX_SLI <= r1 / p <= 2 * MAX_SLI && r1 - r1 % p == (r1 / p) * p && s <= (r1 / p) * p
    ensures Rounded(s) == ClassMin(Search(s))
    ensures InMatrix(Search(s)) || Rounded(s) == MAX_SIZE
    ensures s <= Rounded(s) <= MAX_SIZE
  {
    hide Pow, Rounded, Search, ClassMin, HighBit, Slack;
    SlackIs(s);
    SearchUnits(s, p, r1);
    UnitPowers(n, p);
    BigPowers();
    PowMonotone(2, n + 1, 30);
    Carry(s, p, r1);
    TopBit(n, p, r1);
    SameSize(p, Pow(2, MsBit(r1) - MAX_LOG2_SLI), r1, Rounded(s), ClassMin(Search(s)));
    if n == 29 && r1 / p >= 2 * MAX_SLI { assert Rounded(s) == MAX_SIZE; }
  }

  lemma SlackIs(s: nat)
    requires SMALL_BLOCK <= s < MAX_SIZE
    ensures MsBit(s) >= MAX_LOG2_SLI && Slack(s) + 1 == Pow(2, MsBit(s) - MAX_LOG2_SLI)
  {
    hide Pow, HighBit;
    LogRange(s);
  }

  /** Whole units of p, or, after a carry, of twice p. */
  lemma SameSize(p: nat, p': nat, r1: nat, x: nat, y: nat)
    requires p > 0 && p' > 0 && x == (r1 / p) * p && y == (r1 / p') * p'
    requires p' == p || (p' == 2 * p && x == 2 * MAX_SLI * p && r1 / p' == MAX_SLI)
    ensures x == y
  {
  }

  lemma Carry(s: nat, p: nat, r1: nat)
    requires p > 0 && r1 < 2 * MAX_SLI * p + p && MAX_SLI * p <= s <= r1 && r1 / p <= 2 * MAX_SLI
    ensures MAX_SLI * p <= r1
    ensures r1 / p < 2 * MAX_SLI ==> r1 < 2 * MAX_SLI * p && (r1 / p) * p < 2 * MAX_SLI * p
    ensures r1 / p >= 2 * MAX_SLI ==> 2 * MAX_SLI * p <= r1 < 4 * MAX_SLI * p && (r1 / p) * p == 2 * MAX_SLI * p
    ensures r1 / p >= 2 * MAX_SLI ==> r1 / (2 * p) == MAX_SLI
  {
    CarryCase(s, p, r1, r1 / p, r1 % p);
  }

  lemma TopBit(n: nat, p: nat, r1: Word)
    requires r1 > 0 && Pow(2, n) == 32 * p && Pow(2, n + 1) == 64 * p && Pow(2, n + 2) == 128 * p
    ensures MAX_SLI * p <= r1 < 2 * MAX_SLI * p ==> MsBit(r1) == n
    ensures 2 * MAX_SLI * p <= r1 < 4 * MAX_SLI * p ==> MsBit(r1) == n + 1
  {
    HighBitIsLog(r1);
    hide Pow, HighBit;
    if MAX_SLI * p <= r1 < 2 * MAX_SLI * p { LogUnique(r1, MsBit(r1), n); }
    if 2 * MAX_SLI * p <= r1 < 4 * MAX_SLI * p { LogUnique(r1, MsBit(r1), n + 1); }
  }

  lemma CarryCase(s: nat, p: nat, r1: nat, q: nat, e: nat)
    requires p > 0 && r1 == p * q + e && e < p && r1 < 2 * MAX_SLI * p + p && MAX_SLI * p <= s <= r1 && q <= 2 * MAX_SLI
    ensures MAX_SLI * p <= r1
    ensures q < 2 * MAX_SLI ==> r1 < 2 * MAX_SLI * p && q * p < 2 * MAX_SLI * p
    ensures q >= 2 * MAX_SLI ==> 2 * MAX_SLI * p <= r1 < 4 * MAX_SLI * p && q * p == 2 * MAX_SLI * p
    ensures q >= 2 * MAX_SLI ==> r1 / (2 * p) == MAX_SLI
  {
    if q < 2 * MAX_SLI {
      MulMonotone(p, q + 1, 2 * MAX_SLI);
    } else {
      QuotientUnique(r1, 2 * p, MAX_SLI, e);
    }
  }

  lemma UnitPowers(n: nat, p: nat)
    requires n >= 7 && p == Pow(2, n - MAX_LOG2_SLI)
    ensures Pow(2, n) == 32 * p && Pow(2, n + 1) == 64 * p && Pow(2, n + 2) == 128 * p
    ensures Pow(2, n + 1 - MAX_LOG2_SLI) == 2 * p
  {
    PowAdd(2, 5, n - MAX_LOG2_SLI);
    SmallPowers();
    hide Pow;
    PowTwice(n);
    PowTwice(n + 1);
    PowTwice(n - MAX_LOG2_SLI);
  }

  lemma PowTwice(n: nat)
    ensures Pow(2, n + 1) == 2 * Pow(2, n)
  {
  }

  /** Any block in the first list searched, or a later one, is large enough, even for the
      rounded request; and every block that large is found from that list on. */
  lemma GoodFit(s: nat, size: nat)
    requires s < MAX_SIZE && s % 4 == 0 && Rounded(s) < MAX_SIZE && size < MAX_SIZE
    ensures NotBefore(Insert(size), Search(s)) <==> size >= Rounded(s)
  {
    RoundedIsClassMin(s);
    ClassRange(size);
    InsertInMatrix(size);
    if NotBefore(Insert(size), Search(s)) {
      ClassMinMonotone(Insert(size), Search(s));
    }
    if size >= Rounded(s) {
      InsertMonotone(Rounded(s), size);
      InsertOfRounded(s);
    }
  }

  lemma InsertOfRounded(s: nat)
    requires s < MAX_SIZE && s % 4 == 0 && Rounded(s) < MAX_SIZE
    ensures Insert(Rounded(s)) == Search(s)
  {
    RoundedIsClassMin(s);
    ClassRange(Rounded(s));
    InsertInMatrix(Rounded(s));
    ClassUnique(Rounded(s), Insert(Rounded(s)), Search(s));
  }

  lemma ClassUnique(s: nat, c: Class, d: Class)
    requires InMatrix(c) && InMatrix(d)
    requires ClassMin(c) <= s < ClassMin(Class(c.fl, c.sl + 1)) && s == ClassMin(d)
    ensures c == d
  {
    if !NotBefore(d, c) {
      StrictlyBefore(d, c);
    } else if !NotBefore(c, d) {
      if c.sl + 1 < MAX_SLI { ClassMinMonotone(d, Class(c.fl, c.sl + 1)); } else { LastOfLevel(c, d); }
    }
  }

  lemma StrictlyBefore(d: Class, c: Class)
    requires InMatrix(d) && InMatrix(c) && !NotBefore(d, c)
    ensures ClassMin(d) < ClassMin(c)
  {
    PowPositive(2, d.fl + 1);
    if d.sl + 1 < MAX_SLI {
      ClassMinMonotone(c, Class(d.fl, d.sl + 1));
    } else {
      LastOfLevel(d, c);
    }
    assert (MAX_SLI + d.sl + 1) * Pow(2, d.fl + 1) == (MAX_SLI + d.sl) * Pow(2, d.fl + 1) + Pow(2, d.fl + 1);
  }

  /** Rounding a second time changes nothing, so that a request can be looked up again. */
  lemma RoundedTwice(s: nat)
    requires s < MAX_SIZE && s % 4 == 0 && Rounded(s) < MAX_SIZE
    ensures Rounded(Rounded(s)) == Rounded(s)
    ensures Search(Rounded(s)) == Search(s)
  {
    InsertOfRounded(s);
    if Rounded(s) >= SMALL_BLOCK { RoundedFixed(s); }
  }

  /** Rounding is to whole units, of a size that is a power of two. */
  lemma RoundedUnits(s: nat) returns (p: nat, t: nat)
    requires SMALL_BLOCK <= s < MAX_SIZE
    ensures p == Slack(s) + 1 && Rounded(s) == ((s + p - 1) / p) * p
    ensures p == 4 || p == 8 || p == 16 * t
  {
    hide Rounded, HighBit;
    LogRange(s);
    SmallPowers();
    SlackSmall(s);
    var n := MsBit(s) - MAX_LOG2_SLI;
    p, t := Slack(s) + 1, 0;
    if n >= 4 {
      PowAdd(2, 4, n - 4);
      t := Pow(2, n - 4);
    }
    hide Pow, Slack;
    SearchUnits(s, p, s + Slack(s));
  }

  /** Rounding keeps the alignment of a request. */
  lemma RoundedAligned(s: nat, a: nat)
    requires (a == 4 || a == 16) && s < MAX_SIZE && s % a == 0
    ensures Rounded(s) % a == 0
  {
    if s >= SMALL_BLOCK {
      hide Rounded, Slack;
      var p, t := RoundedUnits(s);
      if p == 4 || p == 8 {
        SmallUnits(s, p, a);
      } else {
        MultipleOf((s + p - 1) / p, p, t, a);
      }
    }
  }

  /** Small units divide the request, which then is not changed by rounding. */
  lemma SmallUnits(s: nat, p: nat, a: nat)
    requires (a == 4 || a == 16) && s % a == 0 && (p == 4 || p == 8)
    ensures (((s + p - 1) / p) * p) % a == 0
  {
    if p == 4 {
      UnitsDivide(s, p, s / 4);
    } else if a == 16 {
      UnitsDivide(s, p, s / 8);
    } else {
      EvenUnits((s + p - 1) / p, p);
    }
  }

  lemma UnitsDivide(s: nat, p: nat, q: nat)
    requires p > 0 && s == p * q
    ensures ((s + p - 1) / p) * p == s
  {
    QuotientUnique(s + p - 1, p, q, p - 1);
  }

  lemma EvenUnits(q: nat, p: nat)
    requires p == 8
    ensures (q * p) % 4 == 0
  {
    assert q * p == 4 * (2 * q);
  }

  lemma MultipleOf(q: nat, p: nat, t: nat, a: nat)
    requires (a == 4 || a == 16) && p == 16 * t
    ensures (q * p) % a == 0
  {
    assert q * p == 16 * (q * t);
  }

  /** A rounded request is in whole units of its own size. */
  lemma OwnUnits(s: nat) returns (q: nat)
    requires s < MAX_SIZE && s % 4 == 0 && SMALL_BLOCK <= Rounded(s) < MAX_SIZE
    ensures Rounded(s) == (Slack(Rounded(s)) + 1) * q
  {
    hide Rounded, Search, HighBit, Pow;
    var x := Rounded(s);
    InsertOfRounded(s);
    RoundedIsClassMin(s);
    LogRange(x);
    q := MAX_SLI + Insert(x).sl;
  }

  lemma RoundedFixed(s: nat)
    requires s < MAX_SIZE && s % 4 == 0 && SMALL_BLOCK <= Rounded(s) < MAX_SIZE
    ensures Rounded(Rounded(s)) == Rounded(s)
    ensures Search(Rounded(s)) == Search(s)
  {
    hide Rounded, Search, Slack, Insert;
    var x := Rounded(s);
    var q := OwnUnits(s);
    RoundedAligned(s, 4);
    var p, t := RoundedUnits(x);
    UnitsDivide(x, p, q);
    InsertOfRounded(s);
    InsertOfRounded(x);
  }
}
