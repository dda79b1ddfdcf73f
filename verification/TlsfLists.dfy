/** The allocator's segregated free lists: doubly linked through the free blocks themselves,
    with a bitmap per first-level index and one over those. */
module TlsfLists {
  import opened Radix
  import opened Bits
  import opened TlsfMap

  /** Memory in words: contents by (byte) address, multiples of 8. */
  type Mem = map<nat, nat>

  function Rd(m: Mem, a: nat): nat {
    if a in m then m[a] else 0
  }

  /** Link fields of a free block with header at b. */
  function PrevFree(m: Mem, b: nat): nat {
    Rd(m, b + 16)
  }

  function NextFree(m: Mem, b: nat): nat {
    Rd(m, b + 24)
  }

  /** Heads of the lists, and the bitmaps that say which are not empty. */
  datatype Index = Index(matrix: seq<seq<nat>>, sl: seq<Word>, fl: Word)

  ghost predicate Shaped(x: Index) {
    && |x.matrix| == |x.sl| == REAL_FLI
    && forall i :: 0 <= i < REAL_FLI ==> |x.matrix[i]| == MAX_SLI
  }

  function Head(x: Index, c: Class): nat
    requires c.fl < |x.matrix| && c.sl < |x.matrix[c.fl]|
  {
    x.matrix[c.fl][c.sl]
  }

  ghost predicate BitsExact(x: Index)
    requires Shaped(x)
  {
    && (forall c: Class :: InMatrix(c) ==> (Bit(x.sl[c.fl], c.sl) <==> Head(x, c) != 0))
    && (forall i: nat :: i < REAL_FLI ==> (Bit(x.fl, i) <==> x.sl[i] != 0))
    && (forall i: nat :: i >= REAL_FLI ==> !Bit(x.fl, i))
  }

  /** The blocks on the lists, each with its list. rank decreases along every list, so that
      lists do not go round in circles. */
  type Members = map<nat, Class>
  type Ranks = map<nat, int>

  ghost predicate LinksOk(m: Mem, x: Index, f: Members, rank: Ranks, b: nat)
    requires Shaped(x)
  {
    b in f ==>
      && b > 0 && b in rank && InMatrix(f[b])
      && var n, p := NextFree(m, b), PrevFree(m, b);
      && (n != 0 ==> n in f && n in rank && f[n] == f[b] && PrevFree(m, n) == b && rank[n] < rank[b])
      && (p != 0 ==> p in f && f[p] == f[b] && NextFree(m, p) == b)
      && (p == 0 ==> Head(x, f[b]) == b)
  }

  ghost predicate HeadOk(m: Mem, x: Index, f: Members, c: Class)
    requires Shaped(x)
  {
    InMatrix(c) && Head(x, c) != 0 ==> Head(x, c) in f && f[Head(x, c)] == c && PrevFree(m, Head(x, c)) == 0
  }

  /** Free blocks are large enough for their link fields not to overlap. */
  ghost predicate Apart(f: Members) {
    forall b, c :: b in f && c in f && b < c ==> b + 32 <= c
  }

  ghost predicate Linked(m: Mem, x: Index, f: Members, rank: Ranks)
    requires Shaped(x)
  {
    && Apart(f)
    && (forall b: nat :: LinksOk(m, x, f, rank, b))
    && (forall c: Class :: HeadOk(m, x, f, c))
  }

  /** The invariant of the lists: they hold exactly the members f. */
  ghost predicate ListInv(m: Mem, x: Index, f: Members, rank: Ranks) {
    Shaped(x) && BitsExact(x) && Linked(m, x, f, rank)
  }

  /** Only the link fields of members matter. */
  lemma ListFrame(m: Mem, m': Mem, x: Index, f: Members, rank: Ranks)
    requires ListInv(m, x, f, rank)
    requires forall b :: b in f ==> PrevFree(m', b) == PrevFree(m, b) && NextFree(m', b) == NextFree(m, b)
    ensures ListInv(m', x, f, rank)
  {
    forall b: nat ensures LinksOk(m', x, f, rank, b) {
      assert LinksOk(m, x, f, rank, b);
    }
    forall c: Class ensures HeadOk(m', x, f, c) {
      assert HeadOk(m, x, f, c);
    }
  }

  // ---- changing a head, and its bits ----

  function PutHead(x: Index, c: Class, b: nat): Index
    requires c.fl < |x.matrix| && c.sl < |x.matrix[c.fl]|
  {
    var row: seq<nat> := x.matrix[c.fl][c.sl := b];
    x.(matrix := x.matrix[c.fl := row])
  }

  /** set_bit in both bitmaps */
  function MarkUsed(x: Index, c: Class): Index
    requires c.fl < |x.sl| && c.fl < 32 && c.sl < 32
  {
    x.(sl := x.sl[c.fl := SetBit(x.sl[c.fl], c.sl)], fl := SetBit(x.fl, c.fl))
  }

  /** clear_bit in the second-level bitmap, and in the first-level one if that is now zero */
  function MarkEmpty(x: Index, c: Class): Index
    requires c.fl < |x.sl| && c.fl < 32 && c.sl < 32
  {
    var s := ClearBit(x.sl[c.fl], c.sl);
    x.(sl := x.sl[c.fl := s], fl := if s == 0 then ClearBit(x.fl, c.fl) else x.fl)
  }

  lemma UsedExact(x: Index, c: Class, b: nat)
    requires Shaped(x) && BitsExact(x) && InMatrix(c) && b != 0
    ensures var x' := MarkUsed(PutHead(x, c, b), c);
      Shaped(x') && BitsExact(x') && Head(x', c) == b && forall d: Class :: InMatrix(d) && d != c ==> Head(x', d) == Head(x, d)
  {
    ZeroIffNoBits(SetBit(x.sl[c.fl], c.sl));
  }

  lemma EmptyExact(x: Index, c: Class)
    requires Shaped(x) && BitsExact(x) && InMatrix(c)
    ensures var x' := MarkEmpty(PutHead(x, c, 0), c);
      Shaped(x') && BitsExact(x') && Head(x', c) == 0 && forall d: Class :: InMatrix(d) && d != c ==> Head(x', d) == Head(x, d)
  {
  }

  lemma MovedExact(x: Index, c: Class, b: nat)
    requires Shaped(x) && BitsExact(x) && InMatrix(c) && Head(x, c) != 0 && b != 0
    ensures var x' := PutHead(x, c, b);
      Shaped(x') && BitsExact(x') && Head(x', c) == b && forall d: Class :: InMatrix(d) && d != c ==> Head(x', d) == Head(x, d)
  {
  }

  // ---- taking a block off its list (EXTRACT_BLOCK) ----

  function ExtractMem(m: Mem, b: nat): Mem {
    var n, p := NextFree(m, b), PrevFree(m, b);
    var m1 := if n != 0 then m[n + 16 := p] else m;
    var m2 := if p != 0 then m1[p + 24 := n] else m1;
    m2[b + 16 := 0][b + 24 := 0]
  }

  function ExtractIndex(m: Mem, x: Index, c: Class, b: nat): Index
    requires c.fl < |x.matrix| && c.sl < |x.matrix[c.fl]| && |x.sl| == |x.matrix| && c.fl < 32 && c.sl < 32
  {
    if Head(x, c) != b then x
    else if NextFree(m, b) != 0 then PutHead(x, c, NextFree(m, b))
    else MarkEmpty(PutHead(x, c, 0), c)
  }

  lemma ExtractedIndex(m: Mem, x: Index, f: Members, rank: Ranks, b: nat)
    requires ListInv(m, x, f, rank) && b in f
    ensures InMatrix(f[b])
    ensures var x' := ExtractIndex(m, x, f[b], b);
      && Shaped(x') && BitsExact(x')
      && Head(x', f[b]) == (if Head(x, f[b]) == b then NextFree(m, b) else Head(x, f[b]))
      && (forall d: Class :: InMatrix(d) && d != f[b] ==> Head(x', d) == Head(x, d))
  {
    assert LinksOk(m, x, f, rank, b);
    EmptyExact(x, f[b]);
    if NextFree(m, b) != 0 && Head(x, f[b]) == b { MovedExact(x, f[b], NextFree(m, b)); }
  }

  /** The links after an extraction, field by field. */
  lemma ExtractedFields(m: Mem, f: Members, b: nat, c: nat)
    requires Apart(f) && b in f && c in f && c != b && c > 0
    requires NextFree(m, b) != 0 ==> NextFree(m, b) in f
    requires PrevFree(m, b) != 0 ==> PrevFree(m, b) in f
    ensures PrevFree(ExtractMem(m, b), c) == if c == NextFree(m, b) then PrevFree(m, b) else PrevFree(m, c)
    ensures NextFree(ExtractMem(m, b), c) == if c == PrevFree(m, b) then NextFree(m, b) else NextFree(m, c)
  {
  }

  lemma ExtractLinks(m: Mem, x: Index, x': Index, f: Members, rank: Ranks, b: nat, c: nat)
    requires ListInv(m, x, f, rank) && b in f && Shaped(x')
    requires InMatrix(f[b])
    requires Head(x', f[b]) == (if Head(x, f[b]) == b then NextFree(m, b) else Head(x, f[b]))
    requires forall d: Class :: InMatrix(d) && d != f[b] ==> Head(x', d) == Head(x, d)
    ensures LinksOk(ExtractMem(m, b), x', f - {b}, rank, c)
  {
    assert LinksOk(m, x, f, rank, b);
    assert HeadOk(m, x, f, f[b]);
    if c in f && c != b {
      assert LinksOk(m, x, f, rank, c);
      ExtractedFields(m, f, b, c);
      var n, p := NextFree(m, b), PrevFree(m, b);
      if p != 0 { assert LinksOk(m, x, f, rank, p); }
      if n != 0 { assert LinksOk(m, x, f, rank, n); }
      if NextFree(m, c) != 0 && NextFree(m, c) != b { ExtractedFields(m, f, b, NextFree(m, c)); }
      if PrevFree(m, c) != 0 && PrevFree(m, c) != b { ExtractedFields(m, f, b, PrevFree(m, c)); }
      if n != 0 && n != c { ExtractedFields(m, f, b, n); }
      if p != 0 && p != c { ExtractedFields(m, f, b, p); }
    }
  }

  lemma ExtractInv(m: Mem, x: Index, f: Members, rank: Ranks, b: nat)
    requires ListInv(m, x, f, rank) && b in f
    ensures InMatrix(f[b])
    ensures Shaped(x) && ListInv(ExtractMem(m, b), ExtractIndex(m, x, f[b], b), f - {b}, rank)
  {
    ExtractedIndex(m, x, f, rank, b);
    var m', x', f' := ExtractMem(m, b), ExtractIndex(m, x, f[b], b), f - {b};
    forall c: nat ensures LinksOk(m', x', f', rank, c) {
      ExtractLinks(m, x, x', f, rank, b, c);
    }
    forall d: Class ensures HeadOk(m', x', f', d) {
      ExtractHead(m, x, x', f, rank, b, d);
    }
  }

  lemma ExtractHead(m: Mem, x: Index, x': Index, f: Members, rank: Ranks, b: nat, d: Class)
    requires ListInv(m, x, f, rank) && b in f && Shaped(x') && InMatrix(f[b])
    requires Head(x', f[b]) == (if Head(x, f[b]) == b then NextFree(m, b) else Head(x, f[b]))
    requires forall e: Class :: InMatrix(e) && e != f[b] ==> Head(x', e) == Head(x, e)
    ensures HeadOk(ExtractMem(m, b), x', f - {b}, d)
  {
    assert HeadOk(m, x, f, d);
    assert HeadOk(m, x, f, f[b]);
    assert LinksOk(m, x, f, rank, b);
    if InMatrix(d) && Head(x', d) != 0 {
      var h := Head(x', d);
      assert LinksOk(m, x, f, rank, h);
      ExtractedFields(m, f, b, h);
    }
  }

  // ---- putting a block at the head of a list (INSERT_BLOCK) ----

  function InsertMem(m: Mem, x: Index, c: Class, b: nat): Mem
    requires c.fl < |x.matrix| && c.sl < |x.matrix[c.fl]|
  {
    var h := Head(x, c);
    var m1 := m[b + 16 := 0][b + 24 := h];
    if h != 0 then m1[h + 16 := b] else m1
  }

  function InsertIndex(x: Index, c: Class, b: nat): Index
    requires c.fl < |x.matrix| && c.sl < |x.matrix[c.fl]| && |x.sl| == |x.matrix| && c.fl < 32 && c.sl < 32
  {
    MarkUsed(PutHead(x, c, b), c)
  }

  ghost function InsertRank(x: Index, rank: Ranks, c: Class, b: nat): Ranks
    requires c.fl < |x.matrix| && c.sl < |x.matrix[c.fl]|
  {
    rank[b := if Head(x, c) in rank then rank[Head(x, c)] + 1 else 0]
  }

  lemma InsertInv(m: Mem, x: Index, f: Members, rank: Ranks, c: Class, b: nat)
    requires ListInv(m, x, f, rank) && InMatrix(c) && b !in f && b > 0 && Apart(f[b := c])
    ensures Shaped(x) && ListInv(InsertMem(m, x, c, b), InsertIndex(x, c, b), f[b := c], InsertRank(x, rank, c, b))
  {
    UsedExact(x, c, b);
    var m', x', f', rank' := InsertMem(m, x, c, b), InsertIndex(x, c, b), f[b := c], InsertRank(x, rank, c, b);
    assert HeadOk(m, x, f, c);
    hide BitsExact, SetBit, InsertIndex;
    forall a: nat ensures LinksOk(m', x', f', rank', a) {
      InsertLinks(m, x, x', f, rank, c, b, a);
    }
    forall d: Class ensures HeadOk(m', x', f', d) {
      assert HeadOk(m, x, f, d);
      if InMatrix(d) && d != c && Head(x, d) != 0 { InsertedFields(m, x, f, c, b, Head(x, d)); }
      if d == c { InsertedFields(m, x, f, c, b, b); }
    }
  }

  lemma InsertedFields(m: Mem, x: Index, f: Members, c: Class, b: nat, a: nat)
    requires Shaped(x) && InMatrix(c) && b !in f && Apart(f[b := c]) && (a in f || a == b) && a > 0
    requires Head(x, c) != 0 ==> Head(x, c) in f
    ensures PrevFree(InsertMem(m, x, c, b), a) == if a == b then 0 else if a == Head(x, c) then b else PrevFree(m, a)
    ensures NextFree(InsertMem(m, x, c, b), a) == if a == b then Head(x, c) else NextFree(m, a)
  {
    assert b in f[b := c] && (a in f ==> a in f[b := c]);
    if Head(x, c) != 0 { assert Head(x, c) in f[b := c]; }
  }

  lemma InsertLinks(m: Mem, x: Index, x': Index, f: Members, rank: Ranks, c: Class, b: nat, a: nat)
    requires Shaped(x) && Linked(m, x, f, rank) && InMatrix(c) && b !in f && b > 0 && Apart(f[b := c])
    requires Shaped(x') && Head(x', c) == b && forall d: Class :: InMatrix(d) && d != c ==> Head(x', d) == Head(x, d)
    ensures LinksOk(InsertMem(m, x, c, b), x', f[b := c], InsertRank(x, rank, c, b), a)
  {
    var h := Head(x, c);
    assert HeadOk(m, x, f, c);
    assert LinksOk(m, x, f, rank, h);
    assert LinksOk(m, x, f, rank, a);
    if a in f[b := c] {
      InsertedFields(m, x, f, c, b, a);
      if a == b {
        if h != 0 { InsertedFields(m, x, f, c, b, h); }
      } else {
        var n, p := NextFree(m, a), PrevFree(m, a);
        if n != 0 {
          assert LinksOk(m, x, f, rank, n);
          InsertedFields(m, x, f, c, b, n);
        }
        if p != 0 { InsertedFields(m, x, f, c, b, p); }
        InsertedFields(m, x, f, c, b, b);
      }
    }
  }

  // ---- what a search finds, and that nothing on a list is out of reach ----

  /** First block of a list, looking from the given one on (FIND_SUITABLE_BLOCK). */
  function Find(x: Index, c: Class): (r: (nat, Class))
    requires Shaped(x) && InMatrix(c)
  {
    var t := KeepFrom(x.sl[c.fl], c.sl);
    LsBitIsLowest(t);
    if t != 0 then
      var d := Class(c.fl, LsBit(t));
      (Head(x, d), d)
    else
      var u := KeepFrom(x.fl, c.fl + 1);
      LsBitIsLowest(u);
      if u == 0 || LsBit(u) <= 0 || LsBit(u) >= REAL_FLI || x.sl[LsBit(u)] == 0 then (0, c) else
        var fl := LsBit(u);
        LsBitIsLowest(x.sl[fl]);
        var d := Class(fl, LsBit(x.sl[fl]));
        (Head(x, d), d)
  }

  /** The search finds the first nonempty list in order; it finds none exactly when all
      lists from c on are empty. */
  lemma FindFirst(x: Index, c: Class)
    requires Shaped(x) && BitsExact(x) && InMatrix(c)
    ensures var (b, d) := Find(x, c);
      && (b != 0 ==> InMatrix(d) && NotBefore(d, c) && Head(x, d) == b)
      && (b != 0 ==> forall e: Class :: InMatrix(e) && NotBefore(e, c) && Head(x, e) != 0 ==> NotBefore(e, d))
      && (b == 0 ==> forall e: Class :: InMatrix(e) && NotBefore(e, c) ==> Head(x, e) == 0)
  {
    var t, u := KeepFrom(x.sl[c.fl], c.sl), KeepFrom(x.fl, c.fl + 1);
    LsBitIsLowest(t);
    LsBitIsLowest(u);
    if t != 0 {
      assert Bit(t, LsBit(t));
      LowestOfLevel(x, c, LsBit(t));
    } else {
      ZeroIffNoBits(t);
      NoneOnLevel(x, c);
      if u == 0 {
        ZeroIffNoBits(u);
        forall e: Class | InMatrix(e) && NotBefore(e, c) ensures Head(x, e) == 0 {
          LaterLevelEmpty(x, c, u, e);
        }
      } else {
        LowestLater(x, c, u);
      }
    }
  }

  lemma LowestOfLevel(x: Index, c: Class, sl: nat)
    requires Shaped(x) && BitsExact(x) && InMatrix(c) && sl < 32
    requires var t := KeepFrom(x.sl[c.fl], c.sl); Bit(t, sl) && forall j: nat :: j < sl ==> !Bit(t, j)
    ensures sl >= c.sl && Head(x, Class(c.fl, sl)) != 0
    ensures forall e: Class :: InMatrix(e) && NotBefore(e, c) && Head(x, e) != 0 ==> NotBefore(e, Class(c.fl, sl))
  {
    forall e: Class | InMatrix(e) && NotBefore(e, c) && Head(x, e) != 0 ensures NotBefore(e, Class(c.fl, sl)) {
      if e.fl == c.fl { assert Bit(KeepFrom(x.sl[c.fl], c.sl), e.sl); }
    }
    assert InMatrix(Class(c.fl, sl));
  }

  lemma NoneOnLevel(x: Index, c: Class)
    requires Shaped(x) && BitsExact(x) && InMatrix(c)
    requires forall j: nat :: !Bit(KeepFrom(x.sl[c.fl], c.sl), j)
    ensures forall sl: nat :: c.sl <= sl < MAX_SLI ==> Head(x, Class(c.fl, sl)) == 0
  {
    forall sl: nat | c.sl <= sl < MAX_SLI ensures Head(x, Class(c.fl, sl)) == 0 {
      assert !Bit(KeepFrom(x.sl[c.fl], c.sl), sl);
      assert InMatrix(Class(c.fl, sl));
    }
  }

  lemma LevelBit(x: Index, e: Class)
    requires Shaped(x) && BitsExact(x) && InMatrix(e)
    ensures Head(x, e) != 0 ==> Bit(x.sl[e.fl], e.sl) && Bit(x.fl, e.fl)
  {
    if Head(x, e) != 0 {
      assert Bit(x.sl[e.fl], e.sl);
      BitZero(e.sl);
      assert x.sl[e.fl] != 0;
    }
  }

  lemma LaterLevelEmpty(x: Index, c: Class, u: Word, e: Class)
    requires Shaped(x) && BitsExact(x) && InMatrix(c) && InMatrix(e) && NotBefore(e, c)
    requires forall sl: nat :: c.sl <= sl < MAX_SLI ==> Head(x, Class(c.fl, sl)) == 0
    requires u == KeepFrom(x.fl, c.fl + 1) && forall j: nat :: !Bit(u, j)
    ensures Head(x, e) == 0
  {
    if e.fl == c.fl {
      assert e == Class(c.fl, e.sl);
    } else {
      LevelBit(x, e);
      assert !Bit(u, e.fl);
    }
  }

  lemma OneOfLevel(x: Index, c: Class, e: Class)
    requires Shaped(x) && InMatrix(c) && InMatrix(e) && e.fl == c.fl && e.sl >= c.sl
    requires forall sl: nat :: c.sl <= sl < MAX_SLI ==> Head(x, Class(c.fl, sl)) == 0
    ensures Head(x, e) == 0
  {
    assert e == Class(c.fl, e.sl);
  }

  lemma LowestLater(x: Index, c: Class, u: Word)
    requires Shaped(x) && BitsExact(x) && InMatrix(c) && u == KeepFrom(x.fl, c.fl + 1) && u != 0
    requires 0 <= LsBit(u) < 32 && Bit(u, LsBit(u)) && forall j: nat :: j < LsBit(u) ==> !Bit(u, j)
    requires forall sl: nat :: c.sl <= sl < MAX_SLI ==> Head(x, Class(c.fl, sl)) == 0
    ensures 0 < LsBit(u) < REAL_FLI && x.sl[LsBit(u)] != 0
    ensures 0 <= LsBit(x.sl[LsBit(u)]) < 32
    ensures var d := Class(LsBit(u), LsBit(x.sl[LsBit(u)]));
      && InMatrix(d) && NotBefore(d, c) && Head(x, d) != 0
      && forall e: Class :: InMatrix(e) && NotBefore(e, c) && Head(x, e) != 0 ==> NotBefore(e, d)
  {
    var fl := LsBit(u);
    assert fl >= c.fl + 1 && Bit(x.fl, fl);
    LsBitIsLowest(x.sl[fl]);
    var d := Class(fl, LsBit(x.sl[fl]));
    assert InMatrix(d);
    forall e: Class | InMatrix(e) && NotBefore(e, c) && Head(x, e) != 0 ensures NotBefore(e, d) {
      if e.fl == c.fl {
        OneOfLevel(x, c, e);
      } else {
        LevelBit(x, e);
        assert Bit(u, e.fl);
        if e.fl == fl { assert Bit(x.sl[fl], e.sl); }
      }
    }
  }

  /** k-th block of a list. */
  function Nth(m: Mem, h: nat, k: nat): nat {
    if k == 0 then h else
      var p := Nth(m, h, k - 1);
      if p == 0 then 0 else NextFree(m, p)
  }

  ghost function Above(f: Members, rank: Ranks, b: nat): set<nat> {
    set c | c in f && c in rank && b in rank && rank[c] > rank[b]
  }

  /** Every member is on its list: following the links from the head of the list reaches it. */
  lemma {:induction false} OnItsList(m: Mem, x: Index, f: Members, rank: Ranks, b: nat) returns (k: nat)
    requires ListInv(m, x, f, rank) && b in f
    ensures InMatrix(f[b]) && Nth(m, Head(x, f[b]), k) == b
    decreases Above(f, rank, b)
  {
    assert LinksOk(m, x, f, rank, b);
    var p := PrevFree(m, b);
    if p == 0 {
      k := 0;
    } else {
      assert LinksOk(m, x, f, rank, p);
      assert p in Above(f, rank, b) && p !in Above(f, rank, p);
      k := OnItsList(m, x, f, rank, p);
      k := k + 1;
    }
  }

  lemma {:induction false} NthOfNone(m: Mem, k: nat)
    ensures Nth(m, 0, k) == 0
  {
    if k > 0 { NthOfNone(m, k - 1); }
  }

  /** The list of a member is not empty. */
  lemma MemberHasHead(m: Mem, x: Index, f: Members, rank: Ranks, b: nat)
    requires ListInv(m, x, f, rank) && b in f
    ensures InMatrix(f[b]) && Head(x, f[b]) != 0
  {
    var k := OnItsList(m, x, f, rank, b);
    assert LinksOk(m, x, f, rank, b);
    if Head(x, f[b]) == 0 { NthOfNone(m, k); }
  }
}
