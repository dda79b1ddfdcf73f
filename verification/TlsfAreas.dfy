/** Areas of memory given to the allocator, and joining a new one with those it touches. */
module TlsfAreas {
  import opened Radix
  import opened TlsfMap
  import opened TlsfLists
  import opened TlsfHeap
  import opened TlsfSteps

  /** An area: header of its first block, which holds the area's own record, and of its last,
      which has no payload. */
  datatype Area = Area(start: nat, end: nat)

  ghost predicate AreaOk(h: Heap, a: Area) {
    a.start < a.end && a.start in h && h[a.start] == Blk(16, false, 0) && a.end in h && h[a.end].size == 0 && !h[a.end].free
  }

  ghost predicate Distinct(areas: seq<Area>) {
    forall i, j :: 0 <= i < j < |areas| ==> areas[i].start != areas[j].start && areas[i].end != areas[j].end
  }

  ghost predicate AreasApart(h: Heap, areas: seq<Area>) {
    Distinct(areas) && forall i :: 0 <= i < |areas| ==> AreaOk(h, areas[i])
  }

  /** No area starts right where another ends. */
  ghost predicate NoneAdjacent(areas: seq<Area>) {
    forall i, j :: 0 <= i < |areas| && 0 <= j < |areas| && i != j ==> areas[i].end + HDR != areas[j].start
  }

  /** Areas are apart; those that could be joined have been. */
  ghost predicate AreasOk(h: Heap, areas: seq<Area>) {
    AreasApart(h, areas) && NoneAdjacent(areas)
  }

  ghost predicate IsStart(areas: seq<Area>, b: nat) {
    exists i :: 0 <= i < |areas| && areas[i].start == b
  }

  /** The blocks handed out to users, with their sizes. */
  ghost function Users(h: Heap, areas: seq<Area>): map<nat, nat> {
    map b | b in h && !h[b].free && h[b].size > 0 && !IsStart(areas, b) :: h[b].size
  }

  /** All data of users' blocks, in block b only the first k bytes, is as it was. */
  ghost predicate UserDataKept(u: map<nat, nat>, m: Mem, m': Mem, b: nat, k: nat) {
    forall c: nat, a: nat :: c in u && c + HDR <= a < c + HDR + (if c == b then k else u[c]) ==> Rd(m', a) == Rd(m, a)
  }

  /** free_ex works from here: everything is in order, but the right neighbour may already say
      that b is free; and b's own header, if lost, does not say that its left neighbour is. */
  ghost predicate Ready(m: Mem, x: Index, h: Heap, rank: Ranks, lo: nat, hi: nat, b: nat, lost: bool) {
    && Tiled(h, lo, hi) && AllMerged(h) && ListInv(m, x, FreeOf(h), rank)
    && b in h && !h[b].free && h[b].size > 0 && End(h, b) in h
    && HeadersBut(m, h, {b, End(h, b)})
    && ClearPrevFree(Rd(m, End(h, b) + 8)) == h[End(h, b)].size + (if h[End(h, b)].free then 1 else 0)
    && (!lost ==> HeaderOk(m, h, b))
    && (lost ==> LeftFree(h, b) && Rd(m, b + 8) == h[b].size)
  }

  /** Block b and its right neighbour are both free and on their lists, and the neighbour's header
      does not say that b is; otherwise all is in order. */
  ghost predicate Unmerged(m: Mem, x: Index, h: Heap, rank: Ranks, lo: nat, hi: nat, b: nat) {
    && Tiled(h, lo, hi) && ListInv(m, x, FreeOf(h), rank)
    && b in h && h[b].free && End(h, b) in h && h[End(h, b)].free
    && HeadersBut(m, h, {End(h, b)}) && Rd(m, End(h, b) + 8) == h[End(h, b)].size + 1
  }

  /** From there the heap is not in order, whatever its blocks are taken to be. */
  lemma UnmergedIsWrong(m: Mem, x: Index, h: Heap, rank: Ranks, lo: nat, hi: nat, b: nat, x': Index, h': Heap,
          rank': Ranks, lo': nat, hi': nat)
    requires Unmerged(m, x, h, rank, lo, hi, b) && b in h'
    ensures !HeapInv(m, x', h', rank', lo', hi')
  {
    assert HeaderOk(m, h, b) && BlkOk(h, lo, hi, b) && BlkOk(h, lo, hi, End(h, b));
    WordParts(h[b].size, true, LeftFree(h, b));
    WordParts(h[End(h, b)].size, true, false);
    if HeapInv(m, x', h', rank', lo', hi') {
      HeaderParts(m, h', lo', hi', b);
      assert BlkOk(h', lo', hi', b) && Merged(h', b);
      HeaderParts(m, h', lo', hi', End(h', b));
    }
  }

  // ---- a new area ----

  /** Its three blocks: its record, one block of s bytes, and the block that ends it. */
  ghost function NewArea(h: Heap, a: nat, s: nat): Heap {
    h[a := Blk(16, false, 0)][a + 32 := Blk(s, false, a)][a + 48 + s := Blk(0, false, a + 32)]
  }

  ghost predicate Outside(h: Heap, a: nat, size: nat) {
    forall c :: c in h ==> End(h, c) <= a || a + size <= c
  }

  ghost predicate AreaFits(lo: nat, hi: nat, lo': nat, hi': nat, a: nat, size: nat) {
    && 0 < lo' <= lo && hi <= hi' && hi' <= lo' + MAX_SIZE
    && lo' <= a && a + size <= hi' && a % 16 == 0
  }

  ghost predicate Added(h: Heap, h': Heap, a: nat, s: nat) {
    && a !in h && a + 32 !in h && a + 48 + s !in h
    && (forall c :: c in h' <==> c in h || c == a || c == a + 32 || c == a + 48 + s)
    && h'[a] == Blk(16, false, 0) && h'[a + 32] == Blk(s, false, a) && h'[a + 48 + s] == Blk(0, false, a + 32)
    && (forall c :: c in h ==> h'[c] == h[c])
  }

  lemma NewAreaTiled(h: Heap, lo: nat, hi: nat, lo': nat, hi': nat, a: nat, size: nat, s: nat)
    requires Tiled(h, lo, hi) && AllMerged(h) && Outside(h, a, size) && AreaFits(lo, hi, lo', hi', a, size)
    requires s % 16 == 0 && s > 0 && 64 + s <= size
    ensures Tiled(NewArea(h, a, s), lo', hi') && AllMerged(NewArea(h, a, s))
    ensures FreeOf(NewArea(h, a, s)) == FreeOf(h)
    ensures Added(h, NewArea(h, a, s), a, s)
  {
    var h' := NewArea(h, a, s);
    assert a !in h && a + 32 !in h && a + 48 + s !in h;
    assert Added(h, h', a, s);
    NewAreaMerged(h, h', lo, hi, a, s);
    NewAreaDisjoint(h, h', a, size, s);
    hide NewArea, Added, BlkOk, AllMerged, Disjoint, FreeOf;
    forall b: nat ensures BlkOk(h', lo', hi', b) {
      NewAreaBlk(h, h', lo, hi, lo', hi', a, size, s, b);
    }
  }

  lemma NewAreaMerged(h: Heap, h': Heap, lo: nat, hi: nat, a: nat, s: nat)
    requires Tiled(h, lo, hi) && AllMerged(h) && Added(h, h', a, s)
    ensures AllMerged(h') && FreeOf(h') == FreeOf(h)
  {
    forall b: nat ensures Merged(h', b) {
      assert Merged(h, b);
    }
  }

  lemma NewAreaDisjoint(h: Heap, h': Heap, a: nat, size: nat, s: nat)
    requires Disjoint(h) && Outside(h, a, size) && Added(h, h', a, s) && 64 + s <= size
    ensures Disjoint(h')
  {
  }

  lemma NewAreaBlk(h: Heap, h': Heap, lo: nat, hi: nat, lo': nat, hi': nat, a: nat, size: nat, s: nat, b: nat)
    requires BlkOk(h, lo, hi, b) && AreaFits(lo, hi, lo', hi', a, size) && Added(h, h', a, s)
    requires s % 16 == 0 && s > 0 && 64 + s <= size
    ensures BlkOk(h', lo', hi', b)
  {
  }

  /** Memory from a on, size bytes, set to zero. */
  function Zeroed(m: Mem, a: nat, size: nat): (m': Mem)
    ensures forall i: nat :: Rd(m', i) == if a <= i < a + size then 0 else Rd(m, i)
  {
    map i | i in m && !(a <= i < a + size) :: m[i]
  }

  /** Only memory in the new area changes. */
  ghost predicate OnlyArea(m: Mem, m': Mem, a: nat, size: nat) {
    forall i: nat :: !(a <= i < a + size) ==> Rd(m', i) == Rd(m, i)
  }

  /** The headers process_area writes. */
  ghost predicate AreaHeaders(m: Mem, a: nat, s: nat) {
    && Rd(m, a + 8) == 16 && Rd(m, a + 40) == s
    && Rd(m, a + 48 + s) == a + 32 && Rd(m, a + 56 + s) == 2
  }

  lemma NewAreaInv(m: Mem, m': Mem, x: Index, h: Heap, rank: Ranks, lo: nat, hi: nat, a: nat, size: nat, s: nat)
    requires HeapInv(m, x, h, rank, lo, hi) && Outside(h, a, size) && a > 0 && s % 16 == 0 && s > 0 && 64 + s <= size
    requires OnlyArea(m, m', a, size) && AreaHeaders(m', a, s)
    ensures var h' := NewArea(h, a, s); ListInv(m', x, FreeOf(h), rank) && HeadersBut(m', h', {a + 48 + s})
  {
    forall b | b in FreeOf(h) ensures PrevFree(m', b) == PrevFree(m, b) && NextFree(m', b) == NextFree(m, b) {
      assert BlkOk(h, lo, hi, b);
    }
    ListFrame(m, m', x, FreeOf(h), rank);
    hide ListInv;
    forall b: nat | b !in {a + 48 + s} ensures HeaderOk(m', NewArea(h, a, s), b) {
      assert HeaderOk(m, h, b) && BlkOk(h, lo, hi, b);
    }
  }

  lemma NewAreaUsers(m: Mem, m': Mem, h: Heap, h': Heap, areas: seq<Area>, a: nat, size: nat, s: nat)
    requires AreasOk(h, areas) && Outside(h, a, size) && s > 0 && 64 + s <= size
    requires Added(h, h', a, s) && OnlyArea(m, m', a, size)
    ensures var areas' := [Area(a, a + 48 + s)] + areas;
      AreasApart(h', areas') && a + 32 !in Users(h, areas) && Users(h', areas') == Users(h, areas)[a + 32 := s]
    ensures UserDataKept(Users(h, areas), m, m', 0, 0)
  {
    var areas' := [Area(a, a + 48 + s)] + areas;
    NewAreaApart(h, h', areas, a, s);
    OneMoreStart(areas, a, a + 48 + s);
    hide AreasApart, NoneAdjacent, IsStart;
    assert !IsStart(areas, a + 32);
    forall b: nat | b in h' ensures b in Users(h', areas') <==> b in Users(h, areas) || b == a + 32 {
    }
  }

  lemma OneMoreStart(areas: seq<Area>, a: nat, e: nat)
    ensures forall b: nat :: IsStart([Area(a, e)] + areas, b) <==> b == a || IsStart(areas, b)
  {
    var areas' := [Area(a, e)] + areas;
    assert areas'[0].start == a;
    forall b: nat ensures IsStart(areas', b) <==> b == a || IsStart(areas, b) {
      forall i | 0 <= i < |areas| && areas[i].start == b ensures IsStart(areas', b) {
        assert areas'[i + 1].start == b;
      }
    }
  }

  lemma NewAreaApart(h: Heap, h': Heap, areas: seq<Area>, a: nat, s: nat)
    requires AreasApart(h, areas) && Added(h, h', a, s)
    ensures AreasApart(h', [Area(a, a + 48 + s)] + areas) && !IsStart(areas, a + 32) && !IsStart(areas, a)
  {
    var areas' := [Area(a, a + 48 + s)] + areas;
    forall i | 0 <= i < |areas'| ensures AreaOk(h', areas'[i]) {
      if i > 0 { assert AreaOk(h, areas[i - 1]); }
    }
    forall i, j | 0 <= i < j < |areas'| ensures areas'[i].start != areas'[j].start && areas'[i].end != areas'[j].end {
      assert AreaOk(h, areas[j - 1]);
    }
    forall i | 0 <= i < |areas| ensures areas[i].start != a + 32 && areas[i].start != a {
      assert AreaOk(h, areas[i]);
    }
  }

  // ---- joining areas ----

  /** Blocks a, its right neighbour and the one after that, all used. */
  ghost predicate ThreeUsed(h: Heap, a: nat) {
    && a in h && End(h, a) in h && End(h, End(h, a)) in h
    && !h[a].free && !h[End(h, a)].free && !h[End(h, End(h, a))].free
  }

  /** Block a has absorbed its next two neighbours. */
  ghost predicate Fused(h: Heap, h': Heap, a: nat) {
    && ThreeUsed(h, a)
    && var m1 := End(h, a); var m2 := End(h, m1); var n := End(h, m2);
    && (forall c :: c in h' <==> c in h && c != m1 && c != m2)
    && a in h' && h'[a] == h[a].(size := h[a].size + 32 + h[m1].size + h[m2].size)
    && n in h && h'[n] == h[n].(left := a)
    && (forall c :: c in h' && c != a && c != n ==> h'[c] == h[c])
  }

  ghost function Fuse(h: Heap, a: nat): Heap
    requires ThreeUsed(h, a)
  {
    var m1 := End(h, a); var m2 := End(h, m1); var n := End(h, m2);
    var big := (h - {m1, m2})[a := h[a].(size := h[a].size + 32 + h[m1].size + h[m2].size)];
    if n in h then big[n := h[n].(left := a)] else big
  }

  lemma FusedUnique(h: Heap, h1: Heap, a: nat)
    requires Fused(h, h1, a)
    ensures h1 == Fuse(h, a) && Fused(h, Fuse(h, a), a)
  {
  }

  /** Headers and touched blocks for fusing at a. */
  ghost predicate FusePlan(p: Plan, h: Heap, a: nat)
    requires ThreeUsed(h, a)
  {
    var m1 := End(h, a); var m2 := End(h, m1);
    {a, m1, End(h, m2)} <= p.stale && {a, m1, m2} <= p.touched && p.k == 0
  }

  /** Across the end of one area and the start of the next: first the end block grows. */
  lemma FuseNext(p: Plan, m: Mem, x: Index, h: Heap, rank: Ranks, a: nat)
    requires Mid(p, m, x, h, rank) && ThreeUsed(h, a) && FusePlan(p, h, a) && h[a].size > 0
    requires h[End(h, a)].size == 0 && Joinable(h, End(h, a))
    ensures Mid(p, m, x, Fuse(h, a), rank) && Fused(h, Fuse(h, a), a)
  {
    hide Mid, Join;
    var m1 := End(h, a);
    JoinStep(p, m, x, h, rank, m1);
    var h1 := Join(h, m1);
    JoinStep(p, m, x, h1, rank, a);
    FusedUnique(h, Join(h1, a), a);
  }

  lemma FusePrev(p: Plan, m: Mem, x: Index, h: Heap, rank: Ranks, a: nat)
    requires Mid(p, m, x, h, rank) && ThreeUsed(h, a) && FusePlan(p, h, a) && h[End(h, End(h, a))].size > 0
    requires h[a].size == 0 && Joinable(h, a)
    requires {End(h, End(h, a))} <= p.stale
    ensures Mid(p, m, x, Fuse(h, a), rank) && Fused(h, Fuse(h, a), a)
  {
    hide Mid, Join;
    JoinStep(p, m, x, h, rank, a);
    var h1 := Join(h, a);
    JoinStep(p, m, x, h1, rank, a);
    FusedUnique(h, Join(h1, a), a);
  }

  /** Losing the bit is exactly what leaves the header wrong. */
  lemma LostIsWrong(m: Mem, x: Index, h: Heap, rank: Ranks, lo: nat, hi: nat, b0: nat, lost: bool)
    requires Ready(m, x, h, rank, lo, hi, b0, lost)
    ensures lost <==> !HeaderOk(m, h, b0)
    ensures SizeOf(Rd(m, b0 + 8)) == h[b0].size && b0 % 16 == 0
  {
    assert BlkOk(h, lo, hi, b0);
    WordParts(h[b0].size, false, LeftFree(h, b0));
    WordParts(h[b0].size, false, false);
  }

  lemma ReadyMid(p: Plan, x: Index, rank: Ranks)
    requires Ready(p.m, x, p.h, rank, p.lo, p.hi, p.b, false) && End(p.h, p.b) in p.stale && p.k == 0
    ensures Mid(p, p.m, x, p.h, rank)
  {
    forall b: nat | b !in p.stale ensures HeaderOk(p.m, p.h, b) {
    }
  }

  ghost function NextPlan(m: Mem, h: Heap, lo: nat, hi: nat, b0: nat): Plan
    requires ThreeUsed(h, b0)
  {
    var m1 := End(h, b0); var m2 := End(h, m1);
    Plan(m, h, lo, hi, {b0, m1, End(h, m2)}, {b0, m1, m2}, b0, 0)
  }

  /** The new area grows over the record of the area that follows: b0's size is set, with the
      bit for its left neighbour cleared. */
  lemma NextStep(m: Mem, x: Index, h: Heap, rank: Ranks, lo: nat, hi: nat, b0: nat, b1: nat)
    requires Ready(m, x, h, rank, lo, hi, b0, false)
    requires ThreeUsed(h, b0) && h[End(h, b0)].size == 0 && h[End(h, End(h, b0))] == Blk(16, false, 0)
    requires b1 == End(h, End(h, End(h, b0)))
    ensures var m' := m[b0 + 8 := h[b0].size + 48][b1 := b0];
      && Fused(h, Fuse(h, b0), b0) && Ready(m', x, Fuse(h, b0), rank, lo, hi, b0, LeftFree(h, b0))
      && DataKept(NextPlan(m, h, lo, hi, b0), m')
  {
    var m', h' := m[b0 + 8 := h[b0].size + 48][b1 := b0], Fuse(h, b0);
    NextMid(m, x, h, rank, lo, hi, b0, b1);
    hide NextPlan, Fuse, DataKept, Track, ListInv, HeadersBut, Tiled, AllMerged;
    NextPlanParts(m, h, lo, hi, b0);
    NextHeaders(m, m', x, h, h', rank, lo, hi, b0, b1);
  }

  lemma NextPlanParts(m: Mem, h: Heap, lo: nat, hi: nat, b0: nat)
    requires ThreeUsed(h, b0)
    ensures var p := NextPlan(m, h, lo, hi, b0);
      && p.stale == {b0, End(h, b0), End(h, End(h, End(h, b0)))} && p.lo == lo && p.hi == hi
      && p.m == m && p.h == h && p.touched == {b0, End(h, b0), End(h, End(h, b0))}
  {
  }

  lemma NextMid(m: Mem, x: Index, h: Heap, rank: Ranks, lo: nat, hi: nat, b0: nat, b1: nat)
    requires Ready(m, x, h, rank, lo, hi, b0, false)
    requires ThreeUsed(h, b0) && h[End(h, b0)].size == 0 && h[End(h, End(h, b0))] == Blk(16, false, 0)
    requires b1 == End(h, End(h, End(h, b0)))
    ensures var h' := Fuse(h, b0);
      Fused(h, h', b0) && Mid(NextPlan(m, h, lo, hi, b0), m[b0 + 8 := h[b0].size + 48][b1 := b0], x, h', rank)
  {
    var p := NextPlan(m, h, lo, hi, b0);
    ReadyMid(p, x, rank);
    assert BlkOk(h, lo, hi, End(h, End(h, b0)));
    hide Mid, Fuse, Ready;
    var h' := Fuse(h, b0);
    FuseNext(p, m, x, h, rank, b0);
    FusedKeys(h, h', b0);
    hide *;
    WriteBoth(p, m, x, h', rank, b0, h[b0].size + 48, b1);
  }

  lemma FusedKeys(h: Heap, h': Heap, a: nat)
    requires Fused(h, h', a)
    ensures a in h' && End(h, End(h, End(h, a))) in h'
  {
  }

  /** The size word of block c, and the link back to it in its right neighbour n. */
  lemma WriteBoth(p: Plan, m: Mem, x: Index, h: Heap, rank: Ranks, c: nat, v: nat, n: nat)
    requires Mid(p, m, x, h, rank) && c in h && n in h && {c, n} <= p.stale
    ensures Mid(p, m[c + 8 := v][n := c], x, h, rank)
  {
    hide *;
    WriteHeader(p, m, x, h, rank, c, true, v);
    WriteHeader(p, m[c + 8 := v], x, h, rank, n, false, c);
  }

  lemma NextHeaders(m: Mem, m': Mem, x: Index, h: Heap, h': Heap, rank: Ranks, lo: nat, hi: nat, b0: nat, b1: nat)
    requires Ready(m, x, h, rank, lo, hi, b0, false) && Fused(h, h', b0) && Tiled(h', lo, hi)
    requires var m1 := End(h, b0); var m2 := End(h, m1); h[m1].size == 0 && h[m2].size == 16 && b1 == End(h, m2)
    requires m' == m[b0 + 8 := h[b0].size + 48][b1 := b0]
    requires HeadersBut(m', h', {b0, End(h, b0), b1})
    ensures LeftFree(h', b0) == LeftFree(h, b0)
    ensures HeadersBut(m', h', {b0, End(h', b0)}) && End(h', b0) in h'
    ensures ClearPrevFree(Rd(m', End(h', b0) + 8)) == h'[End(h', b0)].size + (if h'[End(h', b0)].free then 1 else 0)
    ensures !LeftFree(h, b0) ==> HeaderOk(m', h', b0)
    ensures Rd(m', b0 + 8) == h'[b0].size
  {
    hide ListInv;
    assert BlkOk(h, lo, hi, b0) && BlkOk(h, lo, hi, b1) && BlkOk(h, lo, hi, End(h, End(h, b0)));
    assert HeaderOk(m, h, b1);
    WordParts(h[b1].size, h[b1].free, false);
    assert End(h', b0) == b1;
  }

  ghost function PrevPlan(m: Mem, h: Heap, lo: nat, hi: nat, e: nat): Plan
    requires ThreeUsed(h, e)
  {
    var m1 := End(h, e); var m2 := End(h, m1);
    Plan(m, h, lo, hi, {e, m1, m2, End(h, m2)}, {e, m1, m2}, m2, 0)
  }

  /** The block that ends the preceding area grows over the new area's record and block. */
  lemma PrevStep(m: Mem, x: Index, h: Heap, rank: Ranks, lo: nat, hi: nat, e: nat)
    requires ThreeUsed(h, e) && h[e].size == 0 && h[End(h, e)] == Blk(16, false, 0)
    requires Ready(m, x, h, rank, lo, hi, End(h, End(h, e)), false)
    ensures var b0 := End(h, End(h, e)); var n := End(h, b0);
      var w := h[b0].size + 48 + (if IsPrevFree(Rd(m, e + 8)) then 2 else 0);
      var m', h' := m[e + 8 := w][n := e], Fuse(h, e);
      && Fused(h, h', e) && h'[e].size == h[b0].size + 48
      && Ready(m', x, h', rank, lo, hi, e, false) && LeftFree(h', e) == LeftFree(h, e)
      && DataKept(PrevPlan(m, h, lo, hi, e), m')
  {
    var b0 := End(h, End(h, e)); var n := End(h, b0);
    var w := h[b0].size + 48 + (if IsPrevFree(Rd(m, e + 8)) then 2 else 0);
    var m', h' := m[e + 8 := w][n := e], Fuse(h, e);
    PrevMid(m, x, h, rank, lo, hi, e, n, w);
    hide PrevPlan, Fuse, DataKept, Track, ListInv, HeadersBut, Tiled, AllMerged, IsPrevFree;
    PrevPlanParts(m, h, lo, hi, e);
    PrevHeaders(m, m', x, h, h', rank, lo, hi, e, n, w);
  }

  lemma PrevPlanParts(m: Mem, h: Heap, lo: nat, hi: nat, e: nat)
    requires ThreeUsed(h, e)
    ensures var p := PrevPlan(m, h, lo, hi, e); var m1 := End(h, e); var m2 := End(h, m1);
      p.stale == {e, m1, m2, End(h, m2)} && p.lo == lo && p.hi == hi
  {
  }

  lemma PrevMid(m: Mem, x: Index, h: Heap, rank: Ranks, lo: nat, hi: nat, e: nat, n: nat, w: nat)
    requires ThreeUsed(h, e) && h[e].size == 0 && h[End(h, e)] == Blk(16, false, 0)
    requires Ready(m, x, h, rank, lo, hi, End(h, End(h, e)), false)
    requires n == End(h, End(h, End(h, e)))
    ensures var h' := Fuse(h, e);
      Fused(h, h', e) && Mid(PrevPlan(m, h, lo, hi, e), m[e + 8 := w][n := e], x, h', rank)
  {
    var p := PrevPlan(m, h, lo, hi, e);
    ReadyMid(p, x, rank);
    assert h[End(h, End(h, e))].size > 0;
    hide Mid, Fuse, Ready;
    var h' := Fuse(h, e);
    FusePrev(p, m, x, h, rank, e);
    FusedKeys(h, h', e);
    hide *;
    WriteBoth(p, m, x, h', rank, e, w, n);
  }

  lemma PrevHeaders(m: Mem, m': Mem, x: Index, h: Heap, h': Heap, rank: Ranks, lo: nat, hi: nat, e: nat, n: nat, w: nat)
    requires Fused(h, h', e) && h[e].size == 0 && h[End(h, e)] == Blk(16, false, 0) && Tiled(h', lo, hi)
    requires var b0 := End(h, End(h, e)); Ready(m, x, h, rank, lo, hi, b0, false) && n == End(h, b0)
    requires w == h[End(h, End(h, e))].size + 48 + (if IsPrevFree(Rd(m, e + 8)) then 2 else 0)
    requires m' == m[e + 8 := w][n := e]
    requires HeadersBut(m', h', {e, End(h, e), End(h, End(h, e)), n})
    ensures LeftFree(h', e) == LeftFree(h, e)
    ensures HeadersBut(m', h', {e, End(h', e)}) && End(h', e) in h'
    ensures ClearPrevFree(Rd(m', End(h', e) + 8)) == h'[End(h', e)].size + (if h'[End(h', e)].free then 1 else 0)
    ensures HeaderOk(m', h', e)
  {
    hide ListInv;
    var b0 := End(h, End(h, e));
    assert BlkOk(h, lo, hi, e) && BlkOk(h, lo, hi, b0) && BlkOk(h, lo, hi, n);
    assert HeaderOk(m, h, e);
    WordParts(0, false, LeftFree(h, e));
    assert End(h', e) == n;
  }

  function Without(areas: seq<Area>, i: nat): seq<Area>
    requires i < |areas|
  {
    areas[..i] + areas[i + 1..]
  }

  /** The new area, ending right where old area b starts, takes it over. */
  ghost predicate Follows(h: Heap, a: nat, n: Area, b: Area, n': Area) {
    && ThreeUsed(h, a) && End(h, a) == n.end && End(h, n.end) == b.start && n' == Area(n.start, b.end)
    && h[a].size > 0
  }

  /** Old area b, ending right where the new area starts, takes it over. */
  ghost predicate Precedes(h: Heap, a: nat, n: Area, b: Area, n': Area) {
    && ThreeUsed(h, a) && a == b.end && End(h, a) == n.start && n' == Area(b.start, n.end)
    && h[End(h, n.start)].size > 0
  }

  /** The block the new area brought in, before two areas are joined at a. */
  ghost function NewBlock(h: Heap, a: nat, n: Area, b: Area): nat
    requires n.start in h
  {
    if a == b.end then End(h, n.start) else a
  }

  lemma StartKept(h: Heap, h': Heap, lo: nat, hi: nat, a: nat, s: nat)
    requires Tiled(h, lo, hi) && Fused(h, h', a) && h[End(h, End(h, a))].size > 0
    requires s in h && h[s] == Blk(16, false, 0) && s != a && s != End(h, a) && s != End(h, End(h, a))
    ensures s in h' && h'[s] == Blk(16, false, 0)
  {
    assert BlkOk(h, lo, hi, End(h, End(h, a)));
  }

  lemma EndKept(h: Heap, h': Heap, a: nat, e: nat)
    requires Fused(h, h', a) && e in h && h[e].size == 0 && !h[e].free && e != a && e != End(h, a)
    requires e != End(h, End(h, a))
    ensures e in h' && h'[e].size == 0 && !h'[e].free
  {
  }

  lemma FusedArea(h: Heap, h': Heap, lo: nat, hi: nat, a: nat, areas: seq<Area>, i: nat, n: Area, n': Area, c: Area)
    requires Tiled(h, lo, hi) && Fused(h, h', a) && i < |areas|
    requires AreaOk(h, n) && AreaOk(h, areas[i]) && AreaOk(h, c)
    requires Follows(h, a, n, areas[i], n') || Precedes(h, a, n, areas[i], n')
    requires n.start in h && var b := NewBlock(h, a, n, areas[i]); b != n.start && b != areas[i].start && b != c.start
    requires n.start != areas[i].start && n.end != areas[i].end
    requires (c.start != n.start && c.start != areas[i].start && c.end != n.end && c.end != areas[i].end)
    ensures AreaOk(h', c)
  {
    StartKept(h, h', lo, hi, a, c.start);
    EndKept(h, h', a, c.end);
  }

  lemma FusedAreas(h: Heap, h': Heap, lo: nat, hi: nat, a: nat, areas: seq<Area>, i: nat, n: Area, n': Area)
    requires Tiled(h, lo, hi) && Fused(h, h', a) && i < |areas| && AreasApart(h, [n] + areas)
    requires Follows(h, a, n, areas[i], n') || Precedes(h, a, n, areas[i], n')
    requires n.start in h && !IsStart([n] + areas, NewBlock(h, a, n, areas[i]))
    ensures AreasApart(h', [n'] + Without(areas, i))
  {
    var A, A' := [n] + areas, [n'] + Without(areas, i);
    assert A[0] == n && A[i + 1] == areas[i];
    assert AreaOk(h, A[0]) && AreaOk(h, A[i + 1]);
    assert IsStart(A, n.start) && IsStart(A, areas[i].start);
    WithoutDistinct(areas, i, n, n');
    var b := NewBlock(h, a, n, areas[i]);
    assert A[0].start != A[i + 1].start && A[0].end != A[i + 1].end;
    hide NewBlock, Fused, Follows, Precedes, AreaOk, Tiled;
    forall j | 0 <= j < |A'| ensures AreaOk(h', A'[j]) {
      var k := if j <= i then j else j + 1;
      assert j > 0 ==> A'[j] == A[k];
      assert AreaOk(h, A[k]) && IsStart(A, A[k].start);
      if j > 0 {
        FusedArea(h, h', lo, hi, a, areas, i, n, n', A'[j]);
      } else {
        FusedFirst(h, h', lo, hi, a, areas, i, n, n');
      }
    }
  }

  lemma FusedFirst(h: Heap, h': Heap, lo: nat, hi: nat, a: nat, areas: seq<Area>, i: nat, n: Area, n': Area)
    requires Tiled(h, lo, hi) && Fused(h, h', a) && i < |areas|
    requires AreaOk(h, n) && AreaOk(h, areas[i])
    requires Follows(h, a, n, areas[i], n') || Precedes(h, a, n, areas[i], n')
    requires n.start in h && var b := NewBlock(h, a, n, areas[i]); b != n.start && b != areas[i].start
    requires n.start != areas[i].start && n.end != areas[i].end
    ensures AreaOk(h', n')
  {
    StartKept(h, h', lo, hi, a, n'.start);
    EndKept(h, h', a, n'.end);
  }

  lemma WithoutDistinct(areas: seq<Area>, i: nat, n: Area, n': Area)
    requires i < |areas| && Distinct([n] + areas)
    requires (n'.start == n.start || n'.start == areas[i].start) && (n'.end == n.end || n'.end == areas[i].end)
    ensures Distinct([n'] + Without(areas, i))
  {
    var A, A' := [n] + areas, [n'] + Without(areas, i);
    assert A[0] == n && A[i + 1] == areas[i];
    forall j, k | 0 <= j < k < |A'| ensures A'[j].start != A'[k].start && A'[j].end != A'[k].end {
      var k' := if k <= i then k else k + 1;
      assert A'[k] == A[k'];
      if j > 0 { assert A'[j] == A[if j <= i then j else j + 1]; }
    }
  }

  lemma WithoutStart(areas: seq<Area>, i: nat, n: Area, n': Area, c: nat)
    requires i < |areas| && (n'.start == n.start || n'.start == areas[i].start)
    requires c != n.start || n'.start == n.start
    requires c != areas[i].start || n'.start == areas[i].start
    ensures IsStart([n'] + Without(areas, i), c) <==> IsStart([n] + areas, c)
  {
    var A, A' := [n] + areas, [n'] + Without(areas, i);
    assert A[0] == n && A[i + 1] == areas[i] && A'[0] == n';
    forall j | 0 <= j < |A'| && A'[j].start == c ensures IsStart(A, c) {
      if j > 0 { assert A'[j] == A[if j <= i then j else j + 1]; }
    }
    forall j | 0 <= j < |A| && A[j].start == c ensures IsStart(A', c) {
      if 0 < j <= i { assert A[j] == A'[j]; }
      if j > i + 1 { assert A[j] == A'[j - 1]; }
    }
  }

  /** Joining areas changes no user's block but the new one. */
  lemma FusedUsers(h: Heap, h': Heap, a: nat, areas: seq<Area>, i: nat, n: Area, n': Area)
    requires Fused(h, h', a) && i < |areas| && AreasApart(h, [n] + areas)
    requires Follows(h, a, n, areas[i], n') || Precedes(h, a, n, areas[i], n')
    requires n.start in h && !IsStart([n] + areas, NewBlock(h, a, n, areas[i]))
    ensures Users(h', [n'] + Without(areas, i)) == (Users(h, [n] + areas) - {NewBlock(h, a, n, areas[i])})[a := h'[a].size]
  {
    var A, A' := [n] + areas, [n'] + Without(areas, i);
    assert A[0] == n && A[i + 1] == areas[i];
    assert AreaOk(h, A[0]) && AreaOk(h, A[i + 1]);
    assert A[0].start != A[i + 1].start && A[0].end != A[i + 1].end;
    forall c: nat | c in h' && h'[c].size > 0 ensures IsStart(A', c) <==> IsStart(A, c) {
      WithoutStart(areas, i, n, n', c);
    }
    assert !IsStart(A, a) by {
      forall j | 0 <= j < |A| ensures A[j].start != a { assert AreaOk(h, A[j]); }
    }
    hide IsStart, AreasApart;
  }

  lemma LeftSame(h: Heap, h': Heap, lo: nat, hi: nat, a: nat, c: nat)
    requires Tiled(h, lo, hi) && Fused(h, h', a) && c in h'
    ensures c in h && LeftFree(h', c) == LeftFree(h, c)
  {
    assert BlkOk(h, lo, hi, c);
    assert BlkOk(h, lo, hi, End(h, a)) && BlkOk(h, lo, hi, End(h, End(h, a)));
  }

  lemma DataChain(u: map<nat, nat>, m: Mem, m1: Mem, m2: Mem)
    requires UserDataKept(u, m, m1, 0, 0) && UserDataKept(u, m1, m2, 0, 0) && 0 !in u
    ensures UserDataKept(u, m, m2, 0, 0)
  {
  }

  /** Joining areas keeps the data of all users but that of the new block. */
  lemma FusedData(p: Plan, m: Mem, areas: seq<Area>, u: map<nat, nat>)
    requires DataKept(p, m) && 0 !in u
    requires forall c :: c in u ==> c in Users(p.h, areas) && u[c] == Users(p.h, areas)[c] && c !in p.touched
    ensures UserDataKept(u, p.m, m, 0, 0)
  {
    forall c: nat, a: nat | c in u && c + HDR <= a < c + HDR + u[c] ensures Rd(m, a) == Rd(p.m, a) {
      assert InPayload(p.h, c, a);
      assert Protected(p, a);
    }
  }

  /** Adding an area: its record at ib0, its end at lb0, its block b0; u and m are the users'
      blocks and the memory from before. */
  ghost predicate Growing(m: Mem, x: Index, h: Heap, rank: Ranks, lo: nat, hi: nat, areas: seq<Area>,
      n: Area, b0: nat, lost: bool, m0: Mem, u0: map<nat, nat>)
  {
    Ready(m, x, h, rank, lo, hi, b0, lost) && OthersKept(m, h, areas, n, b0, m0, u0)
  }

  ghost predicate OthersKept(m: Mem, h: Heap, areas: seq<Area>, n: Area, b0: nat, m0: Mem, u0: map<nat, nat>) {
    && b0 in h && AreasApart(h, [n] + areas) && !IsStart([n] + areas, b0) && NoneAdjacent(areas)
    && b0 !in u0 && 0 !in u0 && Users(h, [n] + areas) == u0[b0 := h[b0].size] && UserDataKept(u0, m0, m, 0, 0)
  }

  /** Facts about old area i that the code reads. */
  lemma OldArea(m: Mem, x: Index, h: Heap, rank: Ranks, lo: nat, hi: nat, areas: seq<Area>, n: Area, b0: nat,
          m0: Mem, u0: map<nat, nat>, i: nat)
    requires Growing(m, x, h, rank, lo, hi, areas, n, b0, false, m0, u0) && i < |areas|
    ensures AreaOk(h, areas[i]) && AreaOk(h, n) && b0 != areas[i].start && b0 != n.start && areas[i].start != n.start
    ensures areas[i].end != n.end && areas[i].end != b0
    ensures End(h, areas[i].start) in h
    ensures areas[i].start != End(h, b0) && n.start != End(h, b0)
    ensures SizeOf(Rd(m, areas[i].start + 8)) == 16 && SizeOf(Rd(m, n.start + 8)) == 16
    ensures SizeOf(Rd(m, b0 + 8)) == h[b0].size && h[b0].size % 16 == 0
  {
    hide ListInv, UserDataKept, Users;
    var A := [n] + areas;
    assert A[0] == n && A[i + 1] == areas[i];
    assert AreaOk(h, A[0]) && AreaOk(h, A[i + 1]);
    var ib1 := areas[i].start;
    assert BlkOk(h, lo, hi, ib1) && BlkOk(h, lo, hi, b0);
    assert HeaderOk(m, h, ib1) && HeaderOk(m, h, n.start);
    LostIsWrong(m, x, h, rank, lo, hi, b0, false);
    WordParts(16, false, false);
    assert A[0].start != A[i + 1].start && A[0].end != A[i + 1].end;
  }

  /** Joining the new area with old area i, which starts where it ends. */
  lemma GrowNext(m: Mem, x: Index, h: Heap, rank: Ranks, lo: nat, hi: nat, areas: seq<Area>, n: Area, b0: nat,
          m0: Mem, u0: map<nat, nat>, i: nat, m': Mem, h': Heap)
    requires Growing(m, x, h, rank, lo, hi, areas, n, b0, false, m0, u0) && i < |areas|
    requires b0 in h && End(h, b0) == n.end && areas[i].start == n.end + HDR
    requires m' == m[b0 + 8 := h[b0].size + 48][areas[i].start + 32 := b0]
    requires Fused(h, h', b0)
    ensures Growing(m', x, h', rank, lo, hi, Without(areas, i), Area(n.start, areas[i].end), b0, LeftFree(h, b0), m0, u0)
  {
    NextSetup(m, x, h, rank, lo, hi, areas, n, b0, m0, u0, i);
    FusedUnique(h, h', b0);
    var n', b1 := Area(n.start, areas[i].end), areas[i].start + 32;
    hide *;
    NextStep(m, x, h, rank, lo, hi, b0, b1);
    var p := NextPlan(m, h, lo, hi, b0);
    NextPlanParts(m, h, lo, hi, b0);
    OthersStill(p, m', h', lo, hi, b0, areas, i, n, n', m0, u0);
    GrowingOf(m', x, h', rank, lo, hi, Without(areas, i), n', b0, LeftFree(h, b0), m0, u0);
  }

  lemma NextSetup(m: Mem, x: Index, h: Heap, rank: Ranks, lo: nat, hi: nat, areas: seq<Area>, n: Area, b0: nat,
          m0: Mem, u0: map<nat, nat>, i: nat)
    requires Growing(m, x, h, rank, lo, hi, areas, n, b0, false, m0, u0) && i < |areas|
    requires b0 in h && End(h, b0) == n.end && areas[i].start == n.end + HDR
    ensures Follows(h, b0, n, areas[i], Area(n.start, areas[i].end)) && n.start in h
    ensures NewBlock(h, b0, n, areas[i]) == b0
    ensures Tiled(h, lo, hi) && OthersKept(m, h, areas, n, b0, m0, u0) && Ready(m, x, h, rank, lo, hi, b0, false)
    ensures ThreeUsed(h, b0) && h[End(h, b0)].size == 0 && h[End(h, End(h, b0))] == Blk(16, false, 0)
    ensures End(h, End(h, End(h, b0))) == areas[i].start + 32 && areas[i].start + 32 in h
  {
    OldArea(m, x, h, rank, lo, hi, areas, n, b0, m0, u0, i);
    hide ListInv, Tiled, OthersKept, Users;
  }

  lemma PrevSetup(m: Mem, x: Index, h: Heap, rank: Ranks, lo: nat, hi: nat, areas: seq<Area>, n: Area, b0: nat,
          m0: Mem, u0: map<nat, nat>, i: nat)
    requires Growing(m, x, h, rank, lo, hi, areas, n, b0, false, m0, u0) && i < |areas|
    requires b0 in h && b0 == n.start + 32 && areas[i].end + HDR == n.start
    ensures var e := areas[i].end;
      ThreeUsed(h, e) && End(h, End(h, End(h, e))) in h && e + 64 + h[b0].size == End(h, b0)
    ensures Tiled(h, lo, hi)
  {
    OldArea(m, x, h, rank, lo, hi, areas, n, b0, m0, u0, i);
    hide ListInv, OthersKept, Users;
    assert BlkOk(h, lo, hi, b0);
  }

  lemma AreaGap(s: nat)
    requires s % 16 == 0
    ensures (s + 48) % 16 == 0
  {
  }

  /** What the code that joins the new area with the next one, i, reads. */
  lemma NextReads(m: Mem, x: Index, h: Heap, rank: Ranks, lo: nat, hi: nat, areas: seq<Area>, n: Area, b0: nat,
          m0: Mem, u0: map<nat, nat>, i: nat)
    requires Growing(m, x, h, rank, lo, hi, areas, n, b0, false, m0, u0) && i < |areas|
    requires b0 in h && End(h, b0) == n.end && areas[i].start == n.end + HDR
    ensures SizeOf(Rd(m, areas[i].start + 8)) == 16 && SizeOf(Rd(m, b0 + 8)) == h[b0].size
    ensures (h[b0].size + 48) % 16 == 0
    ensures ThreeUsed(h, b0) && Fused(h, Fuse(h, b0), b0)
  {
    OldArea(m, x, h, rank, lo, hi, areas, n, b0, m0, u0, i);
    AreaGap(h[b0].size);
    NextSetup(m, x, h, rank, lo, hi, areas, n, b0, m0, u0, i);
    FuseDone(h, b0);
  }

  /** What the code that joins the new area with the previous one, i, reads. */
  lemma PrevReads(m: Mem, x: Index, h: Heap, rank: Ranks, lo: nat, hi: nat, areas: seq<Area>, n: Area, b0: nat,
          m0: Mem, u0: map<nat, nat>, i: nat)
    requires Growing(m, x, h, rank, lo, hi, areas, n, b0, false, m0, u0) && i < |areas|
    requires b0 in h && b0 == n.start + 32 && areas[i].end + HDR == n.start
    ensures SizeOf(Rd(m, n.start + 8)) == 16 && SizeOf(Rd(m, b0 + 8)) == h[b0].size && (h[b0].size + 48) % 16 == 0
    ensures ThreeUsed(h, areas[i].end) && Fused(h, Fuse(h, areas[i].end), areas[i].end)
    ensures areas[i].end + 64 + h[b0].size == End(h, b0)
  {
    OldArea(m, x, h, rank, lo, hi, areas, n, b0, m0, u0, i);
    AreaGap(h[b0].size);
    PrevSetup(m, x, h, rank, lo, hi, areas, n, b0, m0, u0, i);
    FuseDone(h, areas[i].end);
  }

  lemma FuseDone(h: Heap, a: nat)
    requires ThreeUsed(h, a) && End(h, End(h, End(h, a))) in h
    ensures Fused(h, Fuse(h, a), a)
  {
  }

  lemma GrowingOf(m: Mem, x: Index, h: Heap, rank: Ranks, lo: nat, hi: nat, areas: seq<Area>,
      n: Area, b0: nat, lost: bool, m0: Mem, u0: map<nat, nat>)
    requires Ready(m, x, h, rank, lo, hi, b0, lost) && OthersKept(m, h, areas, n, b0, m0, u0)
    ensures Growing(m, x, h, rank, lo, hi, areas, n, b0, lost, m0, u0)
  {
  }

  lemma OthersStill(p: Plan, m': Mem, h': Heap, lo: nat, hi: nat, a: nat, areas: seq<Area>, i: nat, n: Area,
          n': Area, m0: Mem, u0: map<nat, nat>)
    requires Tiled(p.h, lo, hi) && Fused(p.h, h', a) && i < |areas| && DataKept(p, m')
    requires Follows(p.h, a, n, areas[i], n') || Precedes(p.h, a, n, areas[i], n')
    requires n.start in p.h && p.touched == {a, End(p.h, a), End(p.h, End(p.h, a))}
    requires OthersKept(p.m, p.h, areas, n, NewBlock(p.h, a, n, areas[i]), m0, u0)
    ensures OthersKept(m', h', Without(areas, i), n', a, m0, u0)
  {
    var h := p.h;
    FusedAreas(h, h', lo, hi, a, areas, i, n, n');
    FusedUsers(h, h', a, areas, i, n, n');
    NotStartAfter(h, a, areas, i, n, n');
    StillUsers(p, a, areas, i, n, n', u0);
    NoneAdjacentWithout(areas, i);
    hide Users, UserDataKept, DataKept, Tiled, AreasApart, NoneAdjacent, IsStart, Follows, Precedes;
    FusedData(p, m', [n] + areas, u0);
    DataChain(u0, m0, p.m, m');
    var b0 := NewBlock(h, a, n, areas[i]);
    Respliced(u0, b0, h[b0].size, a, h'[a].size);
  }

  lemma Respliced(u: map<nat, nat>, b: nat, v: nat, a: nat, w: nat)
    requires b !in u && a !in u
    ensures (u[b := v] - {b})[a := w] == u[a := w]
  {
  }

  lemma NoneAdjacentWithout(areas: seq<Area>, i: nat)
    requires NoneAdjacent(areas) && i < |areas|
    ensures NoneAdjacent(Without(areas, i))
  {
    var w := Without(areas, i);
    forall j, k | 0 <= j < |w| && 0 <= k < |w| && j != k ensures w[j].end + HDR != w[k].start {
      assert w[j] == areas[if j < i then j else j + 1] && w[k] == areas[if k < i then k else k + 1];
    }
  }

  lemma StillUsers(p: Plan, a: nat, areas: seq<Area>, i: nat, n: Area, n': Area, u0: map<nat, nat>)
    requires ThreeUsed(p.h, a) && i < |areas| && AreasApart(p.h, [n] + areas)
    requires Follows(p.h, a, n, areas[i], n') || Precedes(p.h, a, n, areas[i], n')
    requires n.start in p.h && p.touched == {a, End(p.h, a), End(p.h, End(p.h, a))}
    requires var b0 := NewBlock(p.h, a, n, areas[i]);
      b0 in p.h && b0 !in u0 && Users(p.h, [n] + areas) == u0[b0 := p.h[b0].size]
    ensures forall c :: c in u0 ==> c in Users(p.h, [n] + areas) && u0[c] == Users(p.h, [n] + areas)[c] && c !in p.touched
    ensures a !in u0
  {
    var A, h := [n] + areas, p.h;
    assert A[0] == n && A[i + 1] == areas[i];
    assert AreaOk(h, A[0]) && AreaOk(h, A[i + 1]) && IsStart(A, n.start) && IsStart(A, areas[i].start);
    var b0 := NewBlock(h, a, n, areas[i]);
    var u := Users(h, A);
    forall c | c in u0 ensures c in u && u[c] == u0[c] && c !in p.touched {
      assert c in u0[b0 := h[b0].size];
    }
  }

  /** Joining the new area with old area i, which ends where it starts. */
  lemma GrowPrev(m: Mem, x: Index, h: Heap, rank: Ranks, lo: nat, hi: nat, areas: seq<Area>, n: Area, m0: Mem,
          u0: map<nat, nat>, i: nat, w: nat, m': Mem, h': Heap)
    requires Growing(m, x, h, rank, lo, hi, areas, n, n.start + 32, false, m0, u0) && i < |areas|
    requires n.start + 32 in h && areas[i].end + HDR == n.start
    requires w == h[n.start + 32].size + 48 + (if IsPrevFree(Rd(m, areas[i].end + 8)) then 2 else 0)
    requires m' == m[areas[i].end + 8 := w][End(h, n.start + 32) := areas[i].end]
    requires Fused(h, h', areas[i].end)
    ensures Growing(m', x, h', rank, lo, hi, Without(areas, i), Area(areas[i].start, n.end), areas[i].end, false, m0, u0)
    ensures LeftFree(h', areas[i].end) == LeftFree(h, areas[i].end)
  {
    var b0, e := n.start + 32, areas[i].end;
    OldArea(m, x, h, rank, lo, hi, areas, n, b0, m0, u0, i);
    var n' := Area(areas[i].start, n.end);
    assert Precedes(h, e, n, areas[i], n') && NewBlock(h, e, n, areas[i]) == b0;
    PrevStep(m, x, h, rank, lo, hi, e);
    FusedUnique(h, h', e);
    assert Tiled(h, lo, hi);
    hide OthersKept, Follows, Precedes, Ready, Tiled, DataKept, IsPrevFree, Fuse, Fused, ListInv, AreaOk;
    OthersStill(PrevPlan(m, h, lo, hi, e), m', h', lo, hi, e, areas, i, n, n', m0, u0);
  }

  lemma NotStartAfter(h: Heap, a: nat, areas: seq<Area>, i: nat, n: Area, n': Area)
    requires ThreeUsed(h, a) && i < |areas| && AreasApart(h, [n] + areas)
    requires Follows(h, a, n, areas[i], n') || Precedes(h, a, n, areas[i], n')
    requires n.start in h && !IsStart([n] + areas, NewBlock(h, a, n, areas[i]))
    ensures !IsStart([n'] + Without(areas, i), a)
  {
    var A := [n] + areas;
    assert A[0] == n && A[i + 1] == areas[i];
    assert AreaOk(h, A[0]) && AreaOk(h, A[i + 1]) && IsStart(A, n.start) && IsStart(A, areas[i].start);
    forall j | 0 <= j < |A| ensures A[j].start != a { assert AreaOk(h, A[j]); assert IsStart(A, A[j].start); }
    WithoutStart(areas, i, n, n', a);
  }

  /** The new area lies between two old ones, the lower of which is looked at first, and ends
      in a free block: add_new_area then clears the bit that says so. */
  ghost predicate Clobbers(h: Heap, areas: seq<Area>, n: Area) {
    exists i, j :: 0 <= i < j < |areas| && areas[i].end + HDR == n.start && areas[j].start == n.end + HDR
      && areas[i].end in h && LeftFree(h, areas[i].end)
  }

  // ---- the scan of the old areas ----

  /** Some area ends where the new one starts. */
  ghost predicate Preceded(areas: seq<Area>, start: nat) {
    exists i :: 0 <= i < |areas| && areas[i].end + HDR == start
  }

  ghost predicate EndFree(h: Heap, e: nat) {
    e in h && LeftFree(h, e)
  }

  /** Where the scan of the old areas A0 for neighbours of the new area n0 is: seen of them have
      been looked at, i of those remain; prev and next are those n0 was joined with, or -1. */
  datatype Place = Place(seen: nat, i: nat, prev: int, next: int)

  ghost predicate PrevFound(h0: Heap, A0: seq<Area>, n0: Area, h: Heap, areas: seq<Area>, n: Area, b0: nat, s: Place)
    requires s.seen <= |A0|
  {
    if s.prev < 0 then
      && n.start == n0.start && b0 == n0.start + 32 && !EndFree(h, b0)
      && forall j :: 0 <= j < s.seen ==> A0[j].end + HDR != n0.start
    else
      && s.prev < s.seen && b0 + HDR == A0[s.prev].end + HDR == n0.start && EndFree(h, b0) == EndFree(h0, A0[s.prev].end)
      && forall j :: 0 <= j < |areas| ==> areas[j].end + HDR != n.start
  }

  ghost predicate NextFound(A0: seq<Area>, n0: Area, h: Heap, areas: seq<Area>, n: Area, b0: nat, s: Place)
    requires s.seen <= |A0|
  {
    if s.next < 0 then
      && n.end == n0.end && b0 in h && End(h, b0) == n0.end
      && forall j :: 0 <= j < s.seen ==> A0[j].start != n0.end + HDR
    else
      && s.next < s.seen && A0[s.next].start == n0.end + HDR
      && forall j :: 0 <= j < |areas| ==> n.end + HDR != areas[j].start
  }

  ghost predicate Scanned(h0: Heap, A0: seq<Area>, n0: Area, h: Heap, areas: seq<Area>, n: Area, b0: nat, s: Place) {
    && s.seen <= |A0| && s.i <= |areas| && areas[s.i..] == A0[s.seen..]
    && PrevFound(h0, A0, n0, h, areas, n, b0, s) && NextFound(A0, n0, h, areas, n, b0, s)
    && NoneAdjacent(areas)
    && (forall j :: 0 <= j < s.i ==> areas[j].end + HDR != n.start && n.end + HDR != areas[j].start)
    && (forall j :: 0 <= j < |areas| ==> EndFree(h, areas[j].end) == EndFree(h0, areas[j].end))
  }

  /** Whether the bit for the left neighbour has been lost. */
  ghost predicate Lost(h0: Heap, A0: seq<Area>, s: Place) {
    0 <= s.prev < s.next && s.prev < |A0| && EndFree(h0, A0[s.prev].end)
  }

  lemma ScanSkip(h0: Heap, A0: seq<Area>, n0: Area, h: Heap, areas: seq<Area>, n: Area, b0: nat, s: Place)
    requires Scanned(h0, A0, n0, h, areas, n, b0, s) && s.i < |areas|
    requires areas[s.i].start != n.end + HDR && areas[s.i].end + HDR != n.start
    ensures s.seen < |A0| && Scanned(h0, A0, n0, h, areas, n, b0, s.(seen := s.seen + 1, i := s.i + 1))
  {
    assert areas[s.i] == areas[s.i..][0] == A0[s.seen];
    assert areas[s.i + 1..] == areas[s.i..][1..] == A0[s.seen + 1..];
  }

  lemma NotYetNext(h0: Heap, A0: seq<Area>, n0: Area, h: Heap, areas: seq<Area>, n: Area, b0: nat, s: Place)
    requires Scanned(h0, A0, n0, h, areas, n, b0, s) && s.i < |areas| && areas[s.i].start == n.end + HDR
    ensures s.next < 0 && b0 in h && End(h, b0) == n.end && !Lost(h0, A0, s) && s.seen < |A0|
    ensures Lost(h0, A0, s.(seen := s.seen + 1, next := s.seen)) == LeftFree(h, b0)
  {
    assert areas[s.i] == areas[s.i..][0] == A0[s.seen];
  }

  lemma NotYetPrev(h0: Heap, A0: seq<Area>, n0: Area, h: Heap, areas: seq<Area>, n: Area, b0: nat, s: Place)
    requires Scanned(h0, A0, n0, h, areas, n, b0, s) && s.i < |areas| && areas[s.i].end + HDR == n.start
    ensures s.prev < 0 && b0 == n.start + 32 && !Lost(h0, A0, s) && s.seen < |A0|
    ensures !Lost(h0, A0, s.(seen := s.seen + 1, prev := s.seen))
  {
    assert areas[s.i] == areas[s.i..][0] == A0[s.seen];
  }

  lemma GrowingParts(m: Mem, x: Index, h: Heap, rank: Ranks, lo: nat, hi: nat, areas: seq<Area>,
      n: Area, b0: nat, lost: bool, m0: Mem, u0: map<nat, nat>)
    requires Growing(m, x, h, rank, lo, hi, areas, n, b0, lost, m0, u0)
    ensures Tiled(h, lo, hi) && AreasApart(h, [n] + areas) && AreaOk(h, n) && b0 in h
    ensures forall i :: 0 <= i < |areas| ==> AreaOk(h, areas[i])
  {
    var A := [n] + areas;
    assert AreaOk(h, A[0]);
    forall i | 0 <= i < |areas| ensures AreaOk(h, areas[i]) {
      assert AreaOk(h, A[i + 1]) && A[i + 1] == areas[i];
    }
  }

  lemma SameLost(h0: Heap, A0: seq<Area>, s: Place)
    ensures Lost(h0, A0, s.(seen := s.seen + 1, i := s.i + 1)) == Lost(h0, A0, s)
  {
  }

  lemma ScanStart(m: Mem, x: Index, h: Heap, rank: Ranks, lo: nat, hi: nat, areas: seq<Area>,
      n: Area, b0: nat, m0: Mem, u0: map<nat, nat>, s: Place)
    requires Growing(m, x, h, rank, lo, hi, areas, n, b0, false, m0, u0) && s == Place(0, 0, -1, -1)
    requires b0 in h && b0 == n.start + 32 && End(h, b0) == n.end && !LeftFree(h, b0)
    ensures Scanned(h, areas, n, h, areas, n, b0, s) && !Lost(h, areas, s) && Distinct(areas)
  {
    var A := [n] + areas;
    forall i, j | 0 <= i < j < |areas| ensures areas[i].start != areas[j].start && areas[i].end != areas[j].end {
      assert A[i + 1] == areas[i] && A[j + 1] == areas[j];
    }
  }

  lemma FusedSize(h: Heap, h': Heap, a: nat, b: nat)
    requires Fused(h, h', a) && (b == a || b == End(h, End(h, a)))
    ensures a in h' && b in h && h'[a].size >= h[b].size
  {
  }

  lemma PrevBlock(h: Heap, n: Area, b: Area)
    requires AreaOk(h, n) && AreaOk(h, b) && b.end + HDR == n.start
    ensures b.end in h && End(h, b.end) == n.start && n.start in h && End(h, n.start) == n.start + 32
  {
  }

  lemma WithoutElems(areas: seq<Area>, i: nat, j: nat)
    requires i < |areas| && j < |areas| - 1
    ensures |Without(areas, i)| == |areas| - 1 && Without(areas, i)[j] == areas[if j < i then j else j + 1]
  {
  }

  lemma WithoutRest(A0: seq<Area>, areas: seq<Area>, i: nat, seen: nat)
    requires i < |areas| && seen <= |A0| && areas[i..] == A0[seen..]
    ensures seen < |A0| && A0[seen] == areas[i] && |Without(areas, i)| == |areas| - 1
    ensures Without(areas, i)[i..] == A0[seen + 1..]
  {
    assert areas[i] == areas[i..][0] == A0[seen];
    assert Without(areas, i)[i..] == areas[i + 1..] == areas[i..][1..];
  }

  lemma EndsSame(h0: Heap, h: Heap, h': Heap, lo: nat, hi: nat, a: nat, areas: seq<Area>, i: nat, n': Area)
    requires Tiled(h, lo, hi) && Fused(h, h', a) && i < |areas| && AreasApart(h', [n'] + Without(areas, i))
    requires forall j :: 0 <= j < |areas| ==> EndFree(h, areas[j].end) == EndFree(h0, areas[j].end)
    ensures forall j :: 0 <= j < |Without(areas, i)| ==> EndFree(h', Without(areas, i)[j].end) == EndFree(h0, Without(areas, i)[j].end)
    ensures forall j :: 0 <= j < |Without(areas, i)| ==> Without(areas, i)[j] == areas[if j < i then j else j + 1]
  {
    var w := Without(areas, i);
    forall j | 0 <= j < |w| ensures EndFree(h', w[j].end) == EndFree(h0, w[j].end)
                            ensures w[j] == areas[if j < i then j else j + 1] {
      WithoutElems(areas, i, j);
      assert ([n'] + w)[j + 1] == w[j] && AreaOk(h', ([n'] + w)[j + 1]);
      LeftSame(h, h', lo, hi, a, w[j].end);
    }
  }

  lemma ScanNext(h0: Heap, A0: seq<Area>, n0: Area, h: Heap, h': Heap, lo: nat, hi: nat, areas: seq<Area>, n: Area,
          b0: nat, s: Place)
    requires Scanned(h0, A0, n0, h, areas, n, b0, s) && s.i < |areas| && areas[s.i].start == n.end + HDR
    requires Tiled(h, lo, hi) && b0 in h && Fused(h, h', b0) && AreaOk(h, n) && AreaOk(h, areas[s.i])
    requires AreasApart(h', [Area(n.start, areas[s.i].end)] + Without(areas, s.i))
    ensures s.next < 0
    ensures Scanned(h0, A0, n0, h', Without(areas, s.i), Area(n.start, areas[s.i].end), b0, s.(seen := s.seen + 1, next := s.seen))
  {
    var w, n' := Without(areas, s.i), Area(n.start, areas[s.i].end);
    WithoutRest(A0, areas, s.i, s.seen);
    NoneAdjacentWithout(areas, s.i);
    LeftSame(h, h', lo, hi, b0, b0);
    EndsSame(h0, h, h', lo, hi, b0, areas, s.i, n');
    hide Tiled, Fused, LeftFree, AreasApart;
    assert forall j :: 0 <= j < |w| ==> n'.end + HDR != w[j].start;
  }

  lemma ScanPrev(h0: Heap, A0: seq<Area>, n0: Area, h: Heap, h': Heap, lo: nat, hi: nat, areas: seq<Area>, n: Area,
          b0: nat, s: Place)
    requires Scanned(h0, A0, n0, h, areas, n, b0, s) && s.i < |areas| && areas[s.i].end + HDR == n.start
    requires Tiled(h, lo, hi) && b0 == n.start + 32 && AreaOk(h, n) && AreaOk(h, areas[s.i])
    requires Fused(h, h', areas[s.i].end)
    requires AreasApart(h', [Area(areas[s.i].start, n.end)] + Without(areas, s.i))
    ensures s.prev < 0
    ensures Scanned(h0, A0, n0, h', Without(areas, s.i), Area(areas[s.i].start, n.end), areas[s.i].end, s.(seen := s.seen + 1, prev := s.seen))
  {
    var w, n', e := Without(areas, s.i), Area(areas[s.i].start, n.end), areas[s.i].end;
    WithoutRest(A0, areas, s.i, s.seen);
    NoneAdjacentWithout(areas, s.i);
    LeftSame(h, h', lo, hi, e, e);
    EndsSame(h0, h, h', lo, hi, e, areas, s.i, n');
    assert b0 in h && End(h', e) == End(h, b0);
    hide Tiled, Fused, LeftFree, AreasApart;
    assert forall j :: 0 <= j < |w| ==> w[j].end + HDR != n'.start;
  }

  /** After the scan, the new area has no neighbour left, and the bit has been lost exactly if
      the area lies between two old ones in the unlucky order. */
  lemma ScanEnd(h0: Heap, A0: seq<Area>, n0: Area, h: Heap, areas: seq<Area>, n: Area, b0: nat, s: Place)
    requires Scanned(h0, A0, n0, h, areas, n, b0, s) && s.i == |areas| && Distinct(A0)
    ensures NoneAdjacent([n] + areas)
    ensures Lost(h0, A0, s) <==> Clobbers(h0, A0, n0)
    ensures b0 == if Preceded(A0, n0.start) then n0.start - HDR else n0.start + 32
  {
    var A := [n] + areas;
    forall j, k | 0 <= j < |A| && 0 <= k < |A| && j != k ensures A[j].end + HDR != A[k].start {
    }
    assert |A0[s.seen..]| == 0;
    if Lost(h0, A0, s) {
      assert A0[s.prev].end + HDR == n0.start && A0[s.next].start == n0.end + HDR;
    }
    if Clobbers(h0, A0, n0) {
      var i, j :| 0 <= i < j < |A0| && A0[i].end + HDR == n0.start && A0[j].start == n0.end + HDR
        && A0[i].end in h0 && LeftFree(h0, A0[i].end);
      assert s.prev == i && s.next == j;
    }
  }

  function RoundDown(v: nat): nat {
    v - v % 16
  }

  /** The record and end that process_area gives an area. */
  function AreaAt(a: nat, size: nat): Area
    requires size >= 80
  {
    Area(a, a + 48 + RoundDown(size - 64))
  }

  lemma NewAreaGrowing(m: Mem, m': Mem, x: Index, h: Heap, rank: Ranks, lo: nat, hi: nat, lo': nat, hi': nat,
          areas: seq<Area>, a: nat, size: nat)
    requires HeapInv(m, x, h, rank, lo, hi) && AreasOk(h, areas) && size >= 80
    requires Outside(h, a, size) && AreaFits(lo, hi, lo', hi', a, size)
    requires OnlyArea(m, m', a, size) && AreaHeaders(m', a, RoundDown(size - 64))
    ensures var h' := NewArea(h, a, RoundDown(size - 64)); var b := a + 32;
      && Growing(m', x, h', rank, lo', hi', areas, AreaAt(a, size), b, false, m, Users(h, areas))
      && b in h' && End(h', b) == AreaAt(a, size).end && !LeftFree(h', b) && h'[b].size == RoundDown(size - 64)
      && (Clobbers(h', areas, AreaAt(a, size)) <==> Clobbers(h, areas, AreaAt(a, size)))
  {
    hide Growing, OnlyArea, AreaHeaders, NewArea, Users, ListInv, Headers, Disjoint, BlkOk, Merged, Clobbers,
         Outside, IsStart, UserDataKept, FreeOf;
    var s := RoundDown(size - 64);
    var h' := NewArea(h, a, s);
    RoundDownBy(size - 64);
    NewAreaTiled(h, lo, hi, lo', hi', a, size, s);
    NewAreaInv(m, m', x, h, rank, lo, hi, a, size, s);
    NewAreaUsers(m, m', h, h', areas, a, size, s);
    hide RoundDown, AreasOk, Added, Tiled;
    NewAreaRest(m, m', x, h, h', rank, lo, hi, lo', hi', areas, a, size, s);
  }

  lemma RoundDownBy(v: nat)
    ensures RoundDown(v) % 16 == 0 && v - 16 < RoundDown(v) <= v && (v >= 16 ==> RoundDown(v) >= 16)
  {
  }

  lemma NewAreaRest(m: Mem, m': Mem, x: Index, h: Heap, h': Heap, rank: Ranks, lo: nat, hi: nat, lo': nat, hi': nat,
          areas: seq<Area>, a: nat, size: nat, s: nat)
    requires HeapInv(m, x, h, rank, lo, hi) && AreasOk(h, areas) && Added(h, h', a, s)
    requires AreaFits(lo, hi, lo', hi', a, size)
    requires Tiled(h', lo', hi') && AllMerged(h') && FreeOf(h') == FreeOf(h) && s > 0
    requires ListInv(m', x, FreeOf(h), rank) && HeadersBut(m', h', {a + 48 + s}) && AreaHeaders(m', a, s)
    requires AreasApart(h', [Area(a, a + 48 + s)] + areas) && a + 32 !in Users(h, areas)
    requires Users(h', [Area(a, a + 48 + s)] + areas) == Users(h, areas)[a + 32 := s]
    requires UserDataKept(Users(h, areas), m, m', 0, 0)
    ensures Growing(m', x, h', rank, lo', hi', areas, Area(a, a + 48 + s), a + 32, false, m, Users(h, areas))
    ensures Clobbers(h', areas, Area(a, a + 48 + s)) <==> Clobbers(h, areas, Area(a, a + 48 + s))
    ensures a + 32 in h' && h'[a + 32].size == s && End(h', a + 32) == a + 48 + s && !LeftFree(h', a + 32)
  {
    hide ListInv, Users, UserDataKept;
    NewAreaApart(h, h', areas, a, s);
    OneMoreStart(areas, a, a + 48 + s);
    assert 0 !in Users(h, areas) by { ZeroNoUser(m, x, h, rank, lo, hi, areas); }
    assert HeadersBut(m', h', {a + 32, a + 48 + s});
    assert ClearPrevFree(2) == 0;
    assert HeaderOk(m', h', a + 32);
    forall i | 0 <= i < |areas| ensures EndFree(h', areas[i].end) == EndFree(h, areas[i].end) {
      assert AreaOk(h, areas[i]) && BlkOk(h, lo, hi, areas[i].end);
    }
    assert Clobbers(h', areas, Area(a, a + 48 + s)) <==> Clobbers(h, areas, Area(a, a + 48 + s)) by {
      SameClobbers(h, h', areas, Area(a, a + 48 + s));
    }
  }

  lemma ZeroNoUser(m: Mem, x: Index, h: Heap, rank: Ranks, lo: nat, hi: nat, areas: seq<Area>)
    requires Tiled(h, lo, hi)
    ensures 0 !in Users(h, areas)
  {
    assert BlkOk(h, lo, hi, 0);
  }

  lemma SameClobbers(h: Heap, h': Heap, areas: seq<Area>, n: Area)
    requires forall i :: 0 <= i < |areas| ==> EndFree(h', areas[i].end) == EndFree(h, areas[i].end)
    ensures Clobbers(h', areas, n) <==> Clobbers(h, areas, n)
  {
    if Clobbers(h', areas, n) {
      var i, j :| 0 <= i < j < |areas| && areas[i].end + HDR == n.start && areas[j].start == n.end + HDR
        && areas[i].end in h' && LeftFree(h', areas[i].end);
      assert EndFree(h', areas[i].end) && EndFree(h, areas[i].end);
    }
    if Clobbers(h, areas, n) {
      var i, j :| 0 <= i < j < |areas| && areas[i].end + HDR == n.start && areas[j].start == n.end + HDR
        && areas[i].end in h && LeftFree(h, areas[i].end);
      assert EndFree(h, areas[i].end) && EndFree(h', areas[i].end);
    }
  }

  /** What is left of free_ex once all neighbours have been joined. */
  lemma GrowingReady(m: Mem, x: Index, h: Heap, rank: Ranks, lo: nat, hi: nat, areas: seq<Area>,
      n: Area, b0: nat, lost: bool, m0: Mem, u0: map<nat, nat>)
    requires Growing(m, x, h, rank, lo, hi, areas, n, b0, lost, m0, u0) && NoneAdjacent([n] + areas)
    ensures Ready(m, x, h, rank, lo, hi, b0, lost)
    ensures AreasOk(h, [n] + areas) && !IsStart([n] + areas, b0)
    ensures Users(h, [n] + areas) - {b0} == u0 && UserDataKept(u0, m0, m, 0, 0) && 0 !in u0
  {
    Dropped(u0, b0, h[b0].size);
  }

  lemma Dropped(u: map<nat, nat>, b: nat, v: nat)
    requires b !in u
    ensures u[b := v] - {b} == u
  {
  }

  lemma DataAfter(u: map<nat, nat>, u1: map<nat, nat>, b: nat, m: Mem, m1: Mem, m2: Mem)
    requires UserDataKept(u, m, m1, 0, 0) && UserDataKept(u1, m1, m2, b, 0) && u1 - {b} == u && 0 !in u && b !in u
    ensures UserDataKept(u, m, m2, 0, 0)
  {
    forall c: nat, a: nat | c in u && c + HDR <= a < c + HDR + u[c] ensures Rd(m2, a) == Rd(m, a) {
      assert c in u1 - {b} && (u1 - {b})[c] == u[c];
      assert c in u1 && u1[c] == u[c];
    }
  }

  lemma AreaWritten(m: Mem, a: nat, size: nat, s: nat)
    requires 16 <= s && 64 + s <= size
    ensures var m' := m[a + 8 := 16][a + 40 := s][a + 48 := 0][a + 56 := 0][a + 48 + s := a + 32][a + 56 + s := 2];
      AreaHeaders(m', a, s) && OnlyArea(m, m', a, size)
  {
  }

  lemma ZeroedOnly(m: Mem, m1: Mem, m2: Mem, a: nat, size: nat)
    requires m1 == Zeroed(m, a, size) && OnlyArea(m1, m2, a, size)
    ensures OnlyArea(m, m2, a, size)
  {
  }

  lemma AreaAtStart(a: nat, size: nat)
    requires size >= 80
    ensures AreaAt(a, size).start == a
  {
  }

  lemma GrowingUser(m0: Mem, u0: map<nat, nat>, u: map<nat, nat>, b0: nat, m1: Mem, m2: Mem)
    requires u - {b0} == u0 && UserDataKept(u0, m0, m1, 0, 0) && UserDataKept(u, m1, m2, b0, 0) && 0 !in u0
    ensures UserDataKept(u0, m0, m2, 0, 0)
  {
    assert b0 !in u0;
    DataAfter(u0, u, b0, m0, m1, m2);
  }
}
