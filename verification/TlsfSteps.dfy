/** The steps an allocator operation is made of, and what each keeps. In the middle of an
    operation some headers are out of date and blocks taken off the lists count as used. */
module TlsfSteps {
  import opened Radix
  import opened TlsfMap
  import opened TlsfLists
  import opened TlsfHeap

  /** An operation in progress: where it started, which headers it may leave out of date, which
      blocks it may reshape, and the block b of which it must keep the first k bytes. */
  datatype Plan = Plan(m: Mem, h: Heap, lo: nat, hi: nat, stale: set<nat>, touched: set<nat>, b: nat, k: nat)

  /** Address a holds data of a used block c. */
  ghost predicate InPayload(h: Heap, c: nat, a: nat) {
    c in h && !h[c].free && c + HDR <= a < End(h, c)
  }

  ghost predicate HeadersBut(m: Mem, h: Heap, stale: set<nat>) {
    forall b: nat :: b !in stale ==> HeaderOk(m, h, b)
  }

  ghost predicate SameBlk(h: Heap, h': Heap, c: nat) {
    (c in h <==> c in h') && (c in h ==> h'[c].size == h[c].size && h'[c].free == h[c].free && (h'[c].left == 0 <==> h[c].left == 0))
  }

  /** Only touched blocks come, go or change size or state. */
  ghost predicate Track(h: Heap, h': Heap, touched: set<nat>) {
    forall c: nat :: c !in touched ==> SameBlk(h, h', c)
  }

  ghost predicate Protected(p: Plan, a: nat) {
    exists c: nat :: InPayload(p.h, c, a) && (c !in p.touched || (c == p.b && a < p.b + HDR + p.k))
  }

  /** Data of used blocks is as it was, and so are the first k bytes of b. */
  ghost predicate DataKept(p: Plan, m: Mem) {
    forall a: nat :: Protected(p, a) ==> Rd(m, a) == Rd(p.m, a)
  }

  ghost predicate PrefixFits(p: Plan, h: Heap) {
    p.k > 0 ==> p.b in h && !h[p.b].free && p.k <= h[p.b].size
  }

  /** All that an operation keeps, except that free neighbours are merged. */
  ghost predicate Loose(p: Plan, m: Mem, x: Index, h: Heap, rank: Ranks) {
    && Tiled(h, p.lo, p.hi) && HeadersBut(m, h, p.stale)
    && ListInv(m, x, FreeOf(h), rank)
    && Track(p.h, h, p.touched) && DataKept(p, m) && PrefixFits(p, h)
  }

  ghost predicate Mid(p: Plan, m: Mem, x: Index, h: Heap, rank: Ranks) {
    AllMerged(h) && Loose(p, m, x, h, rank)
  }

  lemma Start(p: Plan, x: Index, rank: Ranks)
    requires HeapInv(p.m, x, p.h, rank, p.lo, p.hi) && PrefixFits(p, p.h)
    ensures Mid(p, p.m, x, p.h, rank)
  {
  }

  /** The operation ends when the headers are up to date again. */
  lemma Finish(p: Plan, m: Mem, x: Index, h: Heap, rank: Ranks)
    requires Mid(p, m, x, h, rank) && forall c :: c in p.stale ==> HeaderOk(m, h, c)
    ensures HeapInv(m, x, h, rank, p.lo, p.hi)
  {
    forall c: nat ensures HeaderOk(m, h, c) {
    }
  }

  // ---- writes ----

  lemma ProtectedApart(p: Plan, h: Heap, c: nat, a: nat)
    requires Tiled(h, p.lo, p.hi) && Track(p.h, h, p.touched) && PrefixFits(p, h) && c in h && Protected(p, a)
    ensures a < c || a >= c + HDR
    ensures h[c].free || c in p.touched ==> a < c || a >= End(h, c) || (c == p.b && a < p.b + HDR + p.k)
  {
    var d: nat :| InPayload(p.h, d, a) && (d !in p.touched || (d == p.b && a < p.b + HDR + p.k));
    if d !in p.touched { assert SameBlk(p.h, h, d); }
    assert InPayload(h, d, a);
    assert BlkOk(h, p.lo, p.hi, c);
  }

  /** A write that is to no header kept, no link of a member, and no protected data. */
  lemma WriteWord(p: Plan, m: Mem, x: Index, h: Heap, rank: Ranks, a: nat, v: nat)
    requires Loose(p, m, x, h, rank) && !Protected(p, a)
    requires forall c :: c in h && c !in p.stale ==> a != c && a != c + 8
    requires forall c :: c in h && h[c].free ==> a != c + 16 && a != c + 24
    ensures Loose(p, m[a := v], x, h, rank)
  {
    var m' := m[a := v];
    forall c: nat | c !in p.stale ensures HeaderOk(m', h, c) {
      assert HeaderOk(m, h, c);
    }
    hide HeadersBut, Tiled, BitsExact, Linked;
    ListFrame(m, m', x, FreeOf(h), rank);
  }

  lemma LooseHeader(p: Plan, m: Mem, x: Index, h: Heap, rank: Ranks, c: nat, second: bool, v: nat)
    requires Loose(p, m, x, h, rank) && c in h && c in p.stale
    ensures Loose(p, m[c + (if second then 8 else 0) := v], x, h, rank)
  {
    var a := c + (if second then 8 else 0);
    HeaderApart(h, p.lo, p.hi, c, a);
    if Protected(p, a) { ProtectedApart(p, h, c, a); }
    hide Loose;
    WriteWord(p, m, x, h, rank, a, v);
  }

  lemma WriteHeader(p: Plan, m: Mem, x: Index, h: Heap, rank: Ranks, c: nat, second: bool, v: nat)
    requires Mid(p, m, x, h, rank) && c in h && c in p.stale
    ensures Mid(p, m[c + (if second then 8 else 0) := v], x, h, rank)
  {
    hide Loose;
    LooseHeader(p, m, x, h, rank, c, second, v);
  }

  lemma HeaderApart(h: Heap, lo: nat, hi: nat, c: nat, a: nat)
    requires Tiled(h, lo, hi) && c in h && (a == c || a == c + 8)
    ensures forall d :: d in h && d != c ==> a != d && a != d + 8
    ensures forall d :: d in h && h[d].free ==> a != d + 16 && a != d + 24
  {
    forall d | d in h ensures (d != c ==> a != d && a != d + 8) && (h[d].free ==> a != d + 16 && a != d + 24) {
      assert BlkOk(h, lo, hi, d) && BlkOk(h, lo, hi, c);
    }
  }

  lemma InsideApart(h: Heap, lo: nat, hi: nat, c: nat, a: nat)
    requires Tiled(h, lo, hi) && c in h && c + HDR <= a < End(h, c)
    ensures forall d :: d in h ==> a != d && a != d + 8
    ensures forall d :: d in h && h[d].free && d != c ==> a != d + 16 && a != d + 24
  {
    forall d | d in h ensures a != d && a != d + 8 && (h[d].free && d != c ==> a != d + 16 && a != d + 24) {
      assert BlkOk(h, lo, hi, d) && BlkOk(h, lo, hi, c);
    }
  }

  /** Inside a used block being reshaped, past what must be kept. */
  lemma WriteInside(p: Plan, m: Mem, x: Index, h: Heap, rank: Ranks, c: nat, a: nat, v: nat)
    requires Mid(p, m, x, h, rank) && c in h && !h[c].free && c in p.touched
    requires c + HDR <= a < End(h, c) && (c == p.b ==> a >= p.b + HDR + p.k)
    ensures Mid(p, m[a := v], x, h, rank)
  {
    InsideApart(h, p.lo, p.hi, c, a);
    if Protected(p, a) { ProtectedApart(p, h, c, a); }
    hide Loose;
    WriteWord(p, m, x, h, rank, a, v);
  }

  // ---- lists ----

  lemma LinkFields(h: Heap, lo: nat, hi: nat)
    requires Tiled(h, lo, hi)
    ensures Apart(FreeOf(h))
    ensures forall b :: b in h && h[b].size > 0 ==> b > 0 && End(h, b) >= b + 32
  {
    forall b | b in h ensures b > 0 && (h[b].size > 0 ==> End(h, b) >= b + 32) && (h[b].free ==> End(h, b) >= b + 32) {
      assert BlkOk(h, lo, hi, b);
    }
  }

  /** Addresses of link fields of free blocks, and of block c. */
  ghost predicate LinkOf(h: Heap, c: nat, a: nat) {
    exists d :: d in h && (h[d].free || d == c) && (a == d + 16 || a == d + 24)
  }

  ghost predicate OnlyLinks(m: Mem, m': Mem, h: Heap, c: nat) {
    forall a: nat :: Rd(m', a) != Rd(m, a) ==> LinkOf(h, c, a)
  }

  lemma ExtractLinksOnly(m: Mem, x: Index, h: Heap, rank: Ranks, c: nat)
    requires ListInv(m, x, FreeOf(h), rank) && c in FreeOf(h)
    ensures OnlyLinks(m, ExtractMem(m, c), h, c)
  {
    assert LinksOk(m, x, FreeOf(h), rank, c);
    var n, q := NextFree(m, c), PrevFree(m, c);
    forall a: nat | Rd(ExtractMem(m, c), a) != Rd(m, a) ensures LinkOf(h, c, a) {
      assert n != 0 ==> n in h && h[n].free;
      assert q != 0 ==> q in h && h[q].free;
    }
  }

  lemma InsertLinksOnly(m: Mem, x: Index, h: Heap, rank: Ranks, cl: Class, c: nat)
    requires ListInv(m, x, FreeOf(h), rank) && InMatrix(cl) && c in h
    ensures Shaped(x) && OnlyLinks(m, InsertMem(m, x, cl, c), h, c)
  {
    assert HeadOk(m, x, FreeOf(h), cl);
    var hd := Head(x, cl);
    forall a: nat | Rd(InsertMem(m, x, cl, c), a) != Rd(m, a) ensures LinkOf(h, c, a) {
      assert hd != 0 ==> hd in h && h[hd].free;
    }
  }

  ghost predicate HeadersSame(m: Mem, m': Mem, h: Heap) {
    forall b :: b in h ==> Rd(m', b) == Rd(m, b) && Rd(m', b + 8) == Rd(m, b + 8)
  }

  lemma LinksKeepHeaders(m: Mem, m': Mem, h: Heap, lo: nat, hi: nat, c: nat)
    requires Tiled(h, lo, hi) && OnlyLinks(m, m', h, c) && c in h && h[c].size > 0
    ensures HeadersSame(m, m', h)
  {
    forall b | b in h ensures Rd(m', b) == Rd(m, b) && Rd(m', b + 8) == Rd(m, b + 8) {
      LinkNoHeader(h, lo, hi, c, b, b);
      LinkNoHeader(h, lo, hi, c, b + 8, b);
    }
  }

  /** Inside block c, past its link fields, nothing has changed. */
  ghost predicate InsideSame(m: Mem, m': Mem, h: Heap, c: nat) {
    c in h && forall a: nat :: c + 32 <= a < End(h, c) ==> Rd(m', a) == Rd(m, a)
  }

  lemma LinksKeepInside(m: Mem, m': Mem, h: Heap, lo: nat, hi: nat, c: nat)
    requires Tiled(h, lo, hi) && OnlyLinks(m, m', h, c) && c in h && h[c].size > 0
    ensures InsideSame(m, m', h, c)
  {
    LinkFields(h, lo, hi);
    forall a: nat | c + 32 <= a < End(h, c) ensures Rd(m', a) == Rd(m, a) {
      if LinkOf(h, c, a) {
        var d :| d in h && (h[d].free || d == c) && (a == d + 16 || a == d + 24);
        BlocksApart(h, lo, hi, c, d);
      }
    }
  }

  lemma BlocksApart(h: Heap, lo: nat, hi: nat, c: nat, d: nat)
    requires Tiled(h, lo, hi) && c in h && d in h && h[d].free
    ensures d == c || End(h, d) <= c || End(h, c) <= d
  {
  }

  /** No link field of a free block, or of c, holds protected data. */
  lemma LinkNotProtected(p: Plan, h: Heap, c: nat, a: nat)
    requires Tiled(h, p.lo, p.hi) && Track(p.h, h, p.touched) && PrefixFits(p, h)
    requires c in h && h[c].size > 0 && c in p.touched && (c == p.b ==> p.k == 0) && LinkOf(h, c, a)
    ensures !Protected(p, a)
  {
    LinkFields(h, p.lo, p.hi);
    var d :| d in h && (h[d].free || d == c) && (a == d + 16 || a == d + 24);
    hide Tiled, Track, Protected;
    if Protected(p, a) { ProtectedApart(p, h, d, a); }
  }

  lemma HeadersStill(m: Mem, m': Mem, h: Heap, stale: set<nat>)
    requires HeadersBut(m, h, stale) && HeadersSame(m, m', h)
    ensures HeadersBut(m', h, stale)
  {
    forall b: nat | b !in stale ensures HeaderOk(m', h, b) {
      assert HeaderOk(m, h, b);
    }
  }

  /** Changing link fields keeps headers and protected data. */
  lemma LinksChange(p: Plan, m: Mem, m': Mem, h: Heap, c: nat)
    requires Tiled(h, p.lo, p.hi) && HeadersBut(m, h, p.stale) && Track(p.h, h, p.touched) && DataKept(p, m)
    requires PrefixFits(p, h)
    requires OnlyLinks(m, m', h, c) && c in h && h[c].size > 0 && c in p.touched && (c == p.b ==> p.k == 0)
    ensures HeadersBut(m', h, p.stale) && DataKept(p, m') && HeadersSame(m, m', h)
  {
    hide Tiled, Track, PrefixFits, Protected, HeadersBut, HeadersSame, LinkOf;
    LinksKeepHeaders(m, m', h, p.lo, p.hi, c);
    HeadersStill(m, m', h, p.stale);
    forall a: nat | Protected(p, a) ensures Rd(m', a) == Rd(p.m, a) {
      if LinkOf(h, c, a) { LinkNotProtected(p, h, c, a); }
    }
  }

  lemma LinkNoHeader(h: Heap, lo: nat, hi: nat, c: nat, a: nat, b: nat)
    requires Tiled(h, lo, hi) && c in h && h[c].size > 0 && b in h && (a == b || a == b + 8)
    ensures !LinkOf(h, c, a)
  {
    LinkFields(h, lo, hi);
    if LinkOf(h, c, a) {
      var d :| d in h && (h[d].free || d == c) && (a == d + 16 || a == d + 24);
      assert BlkOk(h, lo, hi, d);
      InsideApart(h, lo, hi, d, a);
    }
  }

  lemma MarkTracked(p: Plan, h: Heap, c: nat, free: bool)
    requires Track(p.h, h, p.touched) && c in h && c in p.touched
    ensures Track(p.h, Mark(h, c, free), p.touched)
  {
    forall d: nat | d !in p.touched ensures SameBlk(p.h, Mark(h, c, free), d) {
      assert SameBlk(p.h, h, d);
    }
  }

  lemma MarkHeaders(m: Mem, h: Heap, lo: nat, hi: nat, stale: set<nat>, c: nat, free: bool)
    requires Tiled(h, lo, hi) && HeadersBut(m, h, stale) && c in h && c in stale && End(h, c) in stale
    ensures HeadersBut(m, Mark(h, c, free), stale)
  {
    forall b: nat | b !in stale ensures HeaderOk(m, Mark(h, c, free), b) {
      assert HeaderOk(m, h, b);
      assert BlkOk(h, lo, hi, b);
    }
  }

  lemma MarkMerged(h: Heap, lo: nat, hi: nat, c: nat, free: bool)
    requires Tiled(h, lo, hi) && AllMerged(h) && c in h && h[c].size > 0
    requires free ==> !LeftFree(h, c) && End(h, c) in h && !h[End(h, c)].free
    ensures AllMerged(Mark(h, c, free))
  {
    forall b: nat ensures Merged(Mark(h, c, free), b) {
      assert Merged(h, b);
      assert BlkOk(h, lo, hi, b) && BlkOk(h, lo, hi, c);
    }
  }

  /** EXTRACT_BLOCK: the block then counts as used. */
  lemma TakeStep(p: Plan, m: Mem, x: Index, h: Heap, rank: Ranks, c: nat)
    requires Mid(p, m, x, h, rank) && c in h && h[c].free && c in p.touched && {c, End(h, c)} <= p.stale
    ensures Insert.requires(h[c].size)
    ensures var cl := Insert(h[c].size);
      InMatrix(cl) && Shaped(x) && Mid(p, ExtractMem(m, c), ExtractIndex(m, x, cl, c), Mark(h, c, false), rank)
    ensures HeadersSame(m, ExtractMem(m, c), h)
  {
    assert BlkOk(h, p.lo, p.hi, c);
    assert p.k > 0 ==> c != p.b;
    var f, cl, h' := FreeOf(h), Insert(h[c].size), Mark(h, c, false);
    assert f[c] == cl;
    ExtractInv(m, x, f, rank, c);
    assert FreeOf(h') == f - {c};
    TakeRest(p, m, x, h, rank, c, h');
  }

  lemma TakeRest(p: Plan, m: Mem, x: Index, h: Heap, rank: Ranks, c: nat, h': Heap)
    requires Mid(p, m, x, h, rank) && c in h && h[c].free && c in p.touched && {c, End(h, c)} <= p.stale
    requires h' == Mark(h, c, false) && (c == p.b ==> p.k == 0)
    ensures Tiled(h', p.lo, p.hi) && AllMerged(h') && HeadersBut(ExtractMem(m, c), h', p.stale)
    ensures Track(p.h, h', p.touched) && DataKept(p, ExtractMem(m, c)) && PrefixFits(p, h')
    ensures HeadersSame(m, ExtractMem(m, c), h)
  {
    assert BlkOk(h, p.lo, p.hi, c);
    hide ListInv, AllMerged, HeadersBut, DataKept;
    ExtractLinksOnly(m, x, h, rank, c);
    LinksChange(p, m, ExtractMem(m, c), h, c);
    MarkTiled(h, p.lo, p.hi, c, false);
    MarkTracked(p, h, c, false);
    MarkHeaders(ExtractMem(m, c), h, p.lo, p.hi, p.stale, c, false);
    MarkMerged(h, p.lo, p.hi, c, false);
  }

  /** INSERT_BLOCK: a used block becomes free, whatever its neighbours are. */
  lemma GiveLoose(p: Plan, m: Mem, x: Index, h: Heap, rank: Ranks, c: nat)
    requires Loose(p, m, x, h, rank) && c in h && !h[c].free && h[c].size > 0 && c in p.touched
    requires {c, End(h, c)} <= p.stale
    requires c == p.b ==> p.k == 0
    ensures Insert.requires(h[c].size)
    ensures var cl := Insert(h[c].size);
      && InMatrix(cl) && Shaped(x)
      && Loose(p, InsertMem(m, x, cl, c), InsertIndex(x, cl, c), Mark(h, c, true), InsertRank(x, rank, cl, c))
      && HeadersSame(m, InsertMem(m, x, cl, c), h) && InsideSame(m, InsertMem(m, x, cl, c), h, c)
  {
    assert BlkOk(h, p.lo, p.hi, c);
    var f, cl, h' := FreeOf(h), Insert(h[c].size), Mark(h, c, true);
    InsertInMatrix(h[c].size);
    GiveRest(p, m, x, h, rank, c, cl, h');
    assert FreeOf(h') == f[c := cl];
    LinkFields(h', p.lo, p.hi);
    InsertInv(m, x, f, rank, cl, c);
  }

  lemma GiveRest(p: Plan, m: Mem, x: Index, h: Heap, rank: Ranks, c: nat, cl: Class, h': Heap)
    requires Loose(p, m, x, h, rank) && c in h && h[c].size > 0 && c in p.touched && {c, End(h, c)} <= p.stale
    requires c == p.b ==> p.k == 0
    requires InMatrix(cl) && h' == Mark(h, c, true)
    ensures Shaped(x) && Tiled(h', p.lo, p.hi) && HeadersBut(InsertMem(m, x, cl, c), h', p.stale)
    ensures Track(p.h, h', p.touched) && DataKept(p, InsertMem(m, x, cl, c)) && PrefixFits(p, h')
    ensures HeadersSame(m, InsertMem(m, x, cl, c), h) && InsideSame(m, InsertMem(m, x, cl, c), h, c)
  {
    assert BlkOk(h, p.lo, p.hi, c);
    InsertLinksOnly(m, x, h, rank, cl, c);
    LinksKeepInside(m, InsertMem(m, x, cl, c), h, p.lo, p.hi, c);
    hide ListInv, HeadersBut, DataKept;
    LinksChange(p, m, InsertMem(m, x, cl, c), h, c);
    MarkTiled(h, p.lo, p.hi, c, true);
    MarkTracked(p, h, c, true);
    MarkHeaders(InsertMem(m, x, cl, c), h, p.lo, p.hi, p.stale, c, true);
  }

  // ---- shape ----

  /** A used block absorbs a used right neighbour. */
  lemma JoinStep(p: Plan, m: Mem, x: Index, h: Heap, rank: Ranks, b: nat)
    requires Mid(p, m, x, h, rank) && Joinable(h, b) && !h[b].free && !h[End(h, b)].free
    requires {b, End(h, End(h, b))} <= p.stale && {b, End(h, b)} <= p.touched && (End(h, b) == p.b ==> p.k == 0)
    ensures Mid(p, m, x, Join(h, b), rank)
    ensures Joined(h, Join(h, b), b)
  {
    JoinTiled(h, p.lo, p.hi, b);
    JoinSlots(h, p.lo, p.hi, b);
    var h' := Join(h, b);
    hide Join;
    assert FreeOf(h') == FreeOf(h);
    assert BlkOk(h, p.lo, p.hi, b) && BlkOk(h, p.lo, p.hi, End(h, b));
    forall d: nat | d !in p.touched ensures SameBlk(p.h, h', d) {
      assert SameBlk(p.h, h, d);
    }
    hide ListInv, Tiled, DataKept;
    JoinRest(m, h, h', p.lo, p.hi, p.stale, b);
  }

  lemma JoinRest(m: Mem, h: Heap, h': Heap, lo: nat, hi: nat, stale: set<nat>, b: nat)
    requires Tiled(h, lo, hi) && AllMerged(h) && HeadersBut(m, h, stale) && Joinable(h, b)
    requires !h[b].free && !h[End(h, b)].free && {b, End(h, End(h, b))} <= stale
    requires Joined(h, h', b)
    ensures AllMerged(h') && HeadersBut(m, h', stale)
  {
    forall c: nat ensures Merged(h', c) {
      assert Merged(h, c);
      assert BlkOk(h, lo, hi, c);
    }
    forall c: nat | c !in stale ensures HeaderOk(m, h', c) {
      assert HeaderOk(m, h, c);
      assert BlkOk(h, lo, hi, c);
    }
  }

  /** A used block gives up all but s bytes. */
  lemma CutStep(p: Plan, m: Mem, x: Index, h: Heap, rank: Ranks, b: nat, s: nat)
    requires Mid(p, m, x, h, rank) && b in h && !h[b].free && 0 < s && s % 16 == 0 && s + HDR < h[b].size
    requires {b, b + HDR + s, End(h, b)} <= p.stale && {b, b + HDR + s} <= p.touched && (b == p.b ==> p.k <= s)
    ensures Mid(p, m, x, Cut(h, b, s), rank)
    ensures Halves(h, Cut(h, b, s), b, s)
  {
    CutTiled(h, p.lo, p.hi, b, s);
    var h' := Cut(h, b, s);
    assert Halves(h, h', b, s);
    hide Cut;
    assert FreeOf(h') == FreeOf(h);
    assert BlkOk(h, p.lo, p.hi, b) && BlkOk(h, p.lo, p.hi, End(h, b));
    forall d: nat | d !in p.touched ensures SameBlk(p.h, h', d) {
      assert SameBlk(p.h, h, d);
    }
    hide ListInv, Tiled, DataKept;
    CutRest(m, h, h', p.lo, p.hi, p.stale, b, s);
  }

  lemma CutRest(m: Mem, h: Heap, h': Heap, lo: nat, hi: nat, stale: set<nat>, b: nat, s: nat)
    requires Tiled(h, lo, hi) && AllMerged(h) && HeadersBut(m, h, stale) && b in h && !h[b].free && s + HDR < h[b].size
    requires {b, b + HDR + s, End(h, b)} <= stale && Halves(h, h', b, s)
    ensures AllMerged(h') && HeadersBut(m, h', stale)
  {
    forall c: nat ensures Merged(h', c) {
      assert Merged(h, c);
      assert BlkOk(h, lo, hi, c);
    }
    forall c: nat | c !in stale ensures HeaderOk(m, h', c) {
      assert HeaderOk(m, h, c);
      assert BlkOk(h, lo, hi, c);
    }
  }
}
