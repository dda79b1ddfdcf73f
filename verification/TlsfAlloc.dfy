/** The allocator. */
module TlsfAllocator {
  import opened Radix
  import opened Bits
  import opened TlsfMap
  import opened TlsfLists
  import opened TlsfHeap
  import opened TlsfSteps
  import opened TlsfAreas

  ghost predicate Unused(h: Heap, b: nat) {
    b in h ==> h[b].free
  }

  /** What an operation on block b leaves to the other users. */
  lemma UserResult(p: Plan, m: Mem, h: Heap, areas: seq<Area>)
    requires Track(p.h, h, p.touched) && DataKept(p, m) && AreasOk(p.h, areas)
    requires !IsStart(areas, p.b) && (p.b in p.h ==> p.h[p.b].size > 0 && p.k <= p.h[p.b].size)
    requires forall t :: t in p.touched && t != p.b ==> Unused(p.h, t) && Unused(h, t)
    ensures AreasOk(h, areas)
    ensures Users(h, areas) - {p.b} == Users(p.h, areas) - {p.b}
    ensures UserDataKept(Users(p.h, areas), p.m, m, p.b, p.k)
  {
    forall i | 0 <= i < |areas| ensures AreaOk(h, areas[i]) {
      assert AreaOk(p.h, areas[i]);
      assert SameBlk(p.h, h, areas[i].start) && SameBlk(p.h, h, areas[i].end);
    }
    forall c: nat | c != p.b ensures c in Users(h, areas) <==> c in Users(p.h, areas)
                             ensures c in Users(h, areas) ==> Users(h, areas)[c] == Users(p.h, areas)[c] {
      if c !in p.touched { assert SameBlk(p.h, h, c); }
    }
    var u := Users(p.h, areas);
    forall c: nat, a: nat | c in u && c + HDR <= a < c + HDR + (if c == p.b then p.k else u[c]) ensures Rd(m, a) == Rd(p.m, a) {
      assert InPayload(p.h, c, a);
      assert Protected(p, a);
    }
  }

  /** Freeing b: it may be merged with both neighbours. */
  ghost function FreePlan(m: Mem, h: Heap, lo: nat, hi: nat, b: nat): Plan
    requires b in h && End(h, b) in h
  {
    var r := End(h, b);
    var left := if LeftFree(h, b) then {h[b].left} else {};
    if h[r].free then Plan(m, h, lo, hi, {b, r, End(h, r)} + left, {b, r} + left, b, 0)
    else Plan(m, h, lo, hi, {b, r} + left, {b} + left, b, 0)
  }

  /** Block b is ready to be merged with a free neighbour or put on a list: its own header says
      it is free; if lost, that header does not say that the left neighbour is, though it is. */
  ghost predicate Freeing(p: Plan, m: Mem, h: Heap, b: nat, lost: bool) {
    && b in h && !h[b].free && h[b].size > 0 && h[b].size % 16 == 0 && End(h, b) in h
    && {b, End(h, b)} <= p.stale && b in p.touched
    && (lost ==> LeftFree(h, b))
    && Rd(m, b + 8) == h[b].size + 1 + (if LeftFree(h, b) && !lost then 2 else 0)
    && (LeftFree(h, b) ==> (!lost ==> Rd(m, b) == h[b].left) && {h[b].left} <= p.stale && {h[b].left} <= p.touched)
    && ClearPrevFree(Rd(m, End(h, b) + 8)) == h[End(h, b)].size + (if h[End(h, b)].free then 1 else 0)
    && forall c :: c in p.stale && c != b && c != End(h, b) ==> HeaderOk(m, h, c)
  }

  /** What merging with the right neighbour does. */
  ghost predicate RightGone(h: Heap, h': Heap, b: nat) {
    b in h && End(h, b) in h &&
    if h[End(h, b)].free then Joined(h, h', b) else h' == h
  }

  /** What merging with the left neighbour does; without the bit that says so, nothing. */
  ghost predicate LeftGone(h: Heap, h': Heap, b: nat, c: nat, lost: bool) {
    b in h &&
    if LeftFree(h, b) && !lost then c == h[b].left && c != b && End(h, c) == b && Joined(Mark(h, c, false), h', c)
    else c == b && h' == h
  }

  lemma NotBothFree(h: Heap, lo: nat, hi: nat, b: nat)
    requires Tiled(h, lo, hi) && AllMerged(h) && b in h && h[b].free
    ensures !LeftFree(h, b)
  {
    assert BlkOk(h, lo, hi, b);
    assert Merged(h, h[b].left);
  }

  lemma FreeingWords(p: Plan, m: Mem, x: Index, h: Heap, rank: Ranks, b: nat, lost: bool)
    requires Mid(p, m, x, h, rank) && Freeing(p, m, h, b, lost)
    ensures b in h && End(h, b) in h && h[b].size > 0
    ensures SizeOf(Rd(m, b + 8)) == h[b].size && IsPrevFree(Rd(m, b + 8)) == (LeftFree(h, b) && !lost)
    ensures SizeOf(Rd(m, End(h, b) + 8)) == h[End(h, b)].size && IsFree(Rd(m, End(h, b) + 8)) == h[End(h, b)].free
    ensures h[End(h, b)].free ==> Joinable(h, b)
    ensures b in p.touched && {b, End(h, b)} <= p.stale && !h[b].free
    ensures LeftFree(h, b) && !lost ==> Rd(m, b) == h[b].left
  {
    var r := End(h, b);
    assert BlkOk(h, p.lo, p.hi, r);
    WordParts(h[b].size, true, LeftFree(h, b) && !lost);
    CleanWord(h[r].size, h[r].free, Rd(m, r + 8));
  }

  lemma CleanWord(s: nat, f: bool, w: nat)
    requires s % 16 == 0 && ClearPrevFree(w) == s + (if f then 1 else 0)
    ensures SizeOf(w) == s && IsFree(w) == f && SetPrevFree(w) == s + (if f then 1 else 0) + 2
  {
  }

  lemma RightMerged(p: Plan, m: Mem, x: Index, h: Heap, rank: Ranks, m': Mem, h': Heap, b: nat, lost: bool)
    requires Mid(p, m, x, h, rank) && Freeing(p, m, h, b, lost)
    requires h[End(h, b)].free && {End(h, End(h, b))} <= p.stale
    requires HeadersSame(m, m', h) && Joined(h, h', b)
    ensures b in h' && Rd(m', b + 8) == Rd(m, b + 8)
    ensures Freeing(p, m'[b + 8 := Rd(m, b + 8) + h[End(h, b)].size + HDR], h', b, lost)
    ensures !h'[End(h', b)].free
  {
    hide ListInv, DataKept, Track, SizeOf, IsFree, IsPrevFree, SetFree, ClearFree, SetPrevFree;
    var r := End(h, b);
    var n := End(h, r);
    assert Merged(h, r) && BlkOk(h, p.lo, p.hi, r) && BlkOk(h, p.lo, p.hi, n) && BlkOk(h, p.lo, p.hi, b);
    SumAligned(h[b].size, h[r].size);
    WordParts(h[n].size, false, true);
    assert HeaderOk(m, h, n);
    assert Tiled(h, p.lo, p.hi);
    hide Mid, Tiled, AllMerged;
    var m2 := m'[b + 8 := Rd(m, b + 8) + h[r].size + HDR];
    forall c | c in p.stale && c != b && c != n ensures HeaderOk(m2, h', c) {
      RightHeader(p, m, h, m2, h', b, c);
    }
  }

  lemma RightHeader(p: Plan, m: Mem, h: Heap, m': Mem, h': Heap, b: nat, c: nat)
    requires Tiled(h, p.lo, p.hi) && b in h && End(h, b) in h && h[End(h, b)].free && Joined(h, h', b) && h[b].size > 0
    requires c != b && c != End(h, End(h, b)) && (c != End(h, b) ==> HeaderOk(m, h, c))
    requires c in h ==> Rd(m', c) == Rd(m, c) && Rd(m', c + 8) == Rd(m, c + 8)
    ensures HeaderOk(m', h', c)
  {
    assert BlkOk(h, p.lo, p.hi, c) && BlkOk(h, p.lo, p.hi, b);
  }

  lemma LeftWords(p: Plan, m: Mem, x: Index, h: Heap, rank: Ranks, b: nat)
    requires Mid(p, m, x, h, rank) && Freeing(p, m, h, b, false) && LeftFree(h, b)
    ensures var l := h[b].left;
      && l in h && h[l].free && End(h, l) == b && {l, b} <= p.stale && {l, b} <= p.touched && {End(h, b)} <= p.stale
      && Rd(m, l + 8) == h[l].size + 1 && SizeOf(Rd(m, l + 8)) == h[l].size && !LeftFree(h, l)
  {
    var l := h[b].left;
    assert BlkOk(h, p.lo, p.hi, b) && BlkOk(h, p.lo, p.hi, l);
    assert HeaderOk(m, h, l);
    NotBothFree(h, p.lo, p.hi, l);
    WordParts(h[l].size, true, false);
  }

  lemma LeftJoins(p: Plan, m: Mem, x: Index, h: Heap, rank: Ranks, b: nat)
    requires Mid(p, m, x, h, rank) && Freeing(p, m, h, b, false) && LeftFree(h, b)
    ensures var l := h[b].left; var h1 := Mark(h, l, false);
      Joinable(h1, l) && !h1[l].free && End(h1, l) == b && !h1[b].free && End(h1, b) == End(h, b)
  {
    assert BlkOk(h, p.lo, p.hi, b);
  }

  lemma LeftMerged(p: Plan, m: Mem, x: Index, h: Heap, rank: Ranks, m': Mem, h': Heap, b: nat, l: nat)
    requires Mid(p, m, x, h, rank) && Freeing(p, m, h, b, false)
    requires LeftFree(h, b) && !h[End(h, b)].free && HeadersSame(m, m', h) && LeftGone(h, h', b, l, false)
    ensures l in h && l in h' && Rd(m', l + 8) == Rd(m, l + 8) && SizeOf(Rd(m', b + 8)) == h[b].size
    ensures Freeing(p, m'[l + 8 := Rd(m, l + 8) + h[b].size + HDR], h', l, false)
    ensures !h'[End(h', l)].free && !LeftFree(h', l)
  {
    hide ListInv, DataKept, Track, IsFree, IsPrevFree, SetFree, ClearFree, SetPrevFree, SizeOf;
    var n := End(h, b);
    LeftWords(p, m, x, h, rank, b);
    FreeingWords(p, m, x, h, rank, b, false);
    assert BlkOk(h, p.lo, p.hi, l) && BlkOk(h, p.lo, p.hi, n) && BlkOk(h, p.lo, p.hi, b);
    SumAligned(h[l].size, h[b].size);
    var m2 := m'[l + 8 := Rd(m, l + 8) + h[b].size + HDR];
    forall c | c in p.stale && c != l && c != n ensures HeaderOk(m2, h', c) {
      LeftHeader(p, m, h, m2, h', b, l, c);
    }
  }

  lemma LeftHeader(p: Plan, m: Mem, h: Heap, m': Mem, h': Heap, b: nat, l: nat, c: nat)
    requires Tiled(h, p.lo, p.hi) && b in h && LeftFree(h, b) && LeftGone(h, h', b, l, false) && h[b].size > 0
    requires c != l && c != End(h, b) && (c != b ==> HeaderOk(m, h, c))
    requires c in h ==> Rd(m', c) == Rd(m, c) && Rd(m', c + 8) == Rd(m, c + 8)
    ensures HeaderOk(m', h', c)
  {
    assert BlkOk(h, p.lo, p.hi, c) && BlkOk(h, p.lo, p.hi, b);
  }

  lemma FreeStart(p: Plan, x: Index, rank: Ranks, lost: bool)
    requires Ready(p.m, x, p.h, rank, p.lo, p.hi, p.b, lost)
    requires p == FreePlan(p.m, p.h, p.lo, p.hi, p.b)
    ensures Mid(p, p.m, x, p.h, rank) && End(p.h, p.b) >= p.b + 32
  {
    assert BlkOk(p.h, p.lo, p.hi, p.b);
    forall c: nat | c !in p.touched ensures SameBlk(p.h, p.h, c) {
    }
  }

  /** The heap after a block was split and its second half freed, slot by slot. */
  ghost predicate Halved(h: Heap, h': Heap, b: nat, s: nat) {
    && b in h && s + HDR <= h[b].size
    && exists h1 :: Halves(h, h1, b, s) && b + HDR + s in h1 && h' == Mark(h1, b + HDR + s, true)
  }

  /** A user's block can be freed. */
  lemma UserReady(m: Mem, x: Index, h: Heap, rank: Ranks, lo: nat, hi: nat, areas: seq<Area>, b: nat)
    requires HeapInv(m, x, h, rank, lo, hi) && b in Users(h, areas)
    ensures Ready(m, x, h, rank, lo, hi, b, false) && !IsStart(areas, b)
  {
    assert BlkOk(h, lo, hi, b);
    var n := End(h, b);
    assert HeaderOk(m, h, n) && BlkOk(h, lo, hi, n);
    WordParts(h[n].size, h[n].free, LeftFree(h, n));
  }

  lemma NoBlockInside(p: Plan, m: Mem, x: Index, h: Heap, rank: Ranks, b: nat, a: nat)
    requires Mid(p, m, x, h, rank) && b in h && b < a < End(h, b)
    ensures a !in h && (a == p.b ==> p.k == 0)
  {
  }

  /** The headers written when a block is split. */
  lemma SplitWords(m: Mem, h: Heap, m1: Mem, h1: Heap, b: nat, s: nat, n: nat, v: nat)
    requires b in h && s + 32 <= h[b].size && Halves(h, h1, b, s) && n == End(h, b) && !h[b].free
    requires var b2 := b + HDR + s; HeadersSame(m[b2 + 8 := h[b].size - s - HDR + 1][n := b2], m1, h1)
    ensures var b2, m2 := b + HDR + s, m1[b + 8 := v];
      && HeaderOk(m2, Mark(h1, b2, true), b2) && Rd(m2, b + 8) == v && Rd(m1, b + 8) == Rd(m, b + 8)
      && Rd(m2, b) == Rd(m, b) && Rd(m2, n) == b2 && Rd(m2, n + 8) == Rd(m, n + 8)
  {
    var b2 := b + HDR + s;
    var m0 := m[b2 + 8 := h[b].size - s - HDR + 1][n := b2];
    assert b in h1 && b2 in h1 && n in h1 && b2 + 32 <= n;
    assert Rd(m1, b2 + 8) == Rd(m0, b2 + 8) && Rd(m1, n + 8) == Rd(m0, n + 8);
  }

  lemma FreePlanParts(m: Mem, h: Heap, lo: nat, hi: nat, b: nat)
    requires b in h && End(h, b) in h
    ensures var p := FreePlan(m, h, lo, hi, b);
      && p.m == m && p.h == h && p.lo == lo && p.hi == hi && p.b == b && p.k == 0
      && b in p.stale && b in p.touched
      && (h[End(h, b)].free ==> {End(h, End(h, b))} <= p.stale && {End(h, b)} <= p.touched)
  {
  }

  /** Setting the free bit and clearing the links of b is all that has happened. */
  lemma FreeingStart(p: Plan, x: Index, rank: Ranks, m: Mem, lost: bool)
    requires Ready(p.m, x, p.h, rank, p.lo, p.hi, p.b, lost)
    requires p == FreePlan(p.m, p.h, p.lo, p.hi, p.b)
    requires m == p.m[p.b + 8 := SetFree(Rd(p.m, p.b + 8))][p.b + 16 := 0][p.b + 24 := 0]
    ensures Freeing(p, m, p.h, p.b, lost)
  {
    hide ListInv, SizeOf, IsFree, IsPrevFree, ClearFree, SetPrevFree, SetFree, ClearPrevFree;
    var h, b := p.h, p.b;
    var r := End(h, b);
    assert BlkOk(h, p.lo, p.hi, b) && BlkOk(h, p.lo, p.hi, r);
    WordParts(h[b].size, false, LeftFree(h, b) && !lost);
    forall c | c in p.stale && c != b && c != r ensures HeaderOk(m, h, c) {
      assert HeaderOk(p.m, h, c);
      ElsewhereKept(p.m, m, h, p.lo, p.hi, b, c);
    }
  }

  lemma ElsewhereKept(m: Mem, m': Mem, h: Heap, lo: nat, hi: nat, b: nat, c: nat)
    requires Tiled(h, lo, hi) && b in h && h[b].size > 0 && c != b && HeaderOk(m, h, c)
    requires forall a: nat :: a != b + 8 && a != b + 16 && a != b + 24 ==> Rd(m', a) == Rd(m, a)
    ensures HeaderOk(m', h, c)
  {
    assert BlkOk(h, lo, hi, b) && BlkOk(h, lo, hi, c);
  }

  /** All headers are up to date when a free block has been put on its list; if lost, all but its own. */
  lemma GivenHeaders(p: Plan, m: Mem, x: Index, h: Heap, rank: Ranks, m1: Mem, c: nat, lost: bool)
    requires Mid(p, m, x, h, rank) && Freeing(p, m, h, c, lost) && !h[End(h, c)].free && (LeftFree(h, c) ==> lost)
    requires HeadersSame(m, m1, h)
    ensures var n := End(h, c); var m2 := m1[n + 8 := SetPrevFree(Rd(m1, n + 8))][n := c];
      && Rd(m2, c + 8) == h[c].size + 1
      && forall d :: d in p.stale && (lost ==> d != c) ==> HeaderOk(m2, Mark(h, c, true), d)
  {
    hide ListInv, DataKept, Track, SizeOf, IsFree, IsPrevFree, SetFree, ClearFree;
    var n := End(h, c);
    var m2 := m1[n + 8 := SetPrevFree(Rd(m1, n + 8))][n := c];
    assert BlkOk(h, p.lo, p.hi, n);
    CleanWord(h[n].size, false, Rd(m, n + 8));
    assert BlkOk(h, p.lo, p.hi, c);
    forall d | d in p.stale && (lost ==> d != c) ensures HeaderOk(m2, Mark(h, c, true), d) {
      assert BlkOk(h, p.lo, p.hi, d);
      assert d != c && d != n ==> HeaderOk(m, h, d);
    }
  }

  lemma GivenSize(m: Mem, m': Mem, h: Heap, c: nat)
    requires c in h && HeadersSame(m, m', h)
    ensures Rd(m', c + 8) == Rd(m, c + 8)
  {
  }

  /** The last writes of free_ex are past the freed block. */
  lemma FinishedInside(m0: Mem, m: Mem, h: Heap, c: nat, w: nat)
    requires InsideSame(m0, m, h, c) && HeadersSame(m0, m, h) && SizeOf(Rd(m0, c + 8)) == h[c].size
    ensures var n := c + HDR + SizeOf(Rd(m, c + 8)); var m' := m[n + 8 := w][n := c];
      InsideSame(m0, m', h, c) && SizeOf(Rd(m', c + 8)) == h[c].size
  {
    hide SizeOf;
    assert Rd(m, c + 8) == Rd(m0, c + 8);
  }

  /** The size of b is still there, though b may now be inside a free block: it reaches to the end of that. */
  lemma FreedSize(m2: Mem, m3: Mem, h1: Heap, h2: Heap, h3: Heap, b: nat, c: nat, lost: bool)
    requires LeftGone(h1, h2, b, c, lost) && c in h2 && h3 == Mark(h2, c, true) && InsideSame(m2, m3, h2, c)
    requires SizeOf(Rd(m2, b + 8)) == h1[b].size > 0 && SizeOf(Rd(m3, c + 8)) == h2[c].size
    requires LeftFree(h1, b) ==> h1[b].left + 32 <= b
    ensures b + HDR + SizeOf(Rd(m3, b + 8)) == End(h3, c)
  {
    hide SizeOf;
    if c != b { assert Rd(m3, b + 8) == Rd(m2, b + 8); }
  }

  lemma LeftRoom(p: Plan, m: Mem, x: Index, h: Heap, rank: Ranks, b: nat)
    requires Mid(p, m, x, h, rank) && b in h && LeftFree(h, b)
    ensures h[b].left + 32 <= b
  {
    assert BlkOk(h, p.lo, p.hi, b) && BlkOk(h, p.lo, p.hi, h[b].left);
  }

  lemma UnmergedIn(m: Mem, x: Index, h: Heap, rank: Ranks, lo: nat, hi: nat, l: nat)
    requires Unmerged(m, x, h, rank, lo, hi, l)
    ensures l in h
  {
  }

  /** Without the bit for its left neighbour, a block goes on its list beside that free neighbour. */
  lemma GivenBeside(p: Plan, m: Mem, x: Index, h: Heap, rank: Ranks, c: nat, m': Mem, x': Index, h': Heap, rank': Ranks)
    requires Mid(p, m, x, h, rank) && Freeing(p, m, h, c, true)
    requires Loose(p, m', x', h', rank') && h' == Mark(h, c, true) && Rd(m', c + 8) == h[c].size + 1
    requires forall d :: d in p.stale && d != c ==> HeaderOk(m', h', d)
    ensures Unmerged(m', x', h', rank', p.lo, p.hi, h[c].left)
  {
    hide ListInv, DataKept, Track;
    assert BlkOk(h, p.lo, p.hi, c);
    forall d: nat | d !in {c} ensures HeaderOk(m', h', d) {
    }
  }

  /** The last steps of free_ex: the right neighbour n learns that c is free. */
  lemma FreeEnds(p: Plan, m0: Mem, x0: Index, h0: Heap, rank0: Ranks, m: Mem, x: Index, h: Heap, rank: Ranks, c: nat,
          lost: bool)
    requires Mid(p, m0, x0, h0, rank0) && Freeing(p, m0, h0, c, lost) && !h0[End(h0, c)].free
    requires (LeftFree(h0, c) ==> lost)
    requires Loose(p, m, x, h, rank) && h == Mark(h0, c, true) && HeadersSame(m0, m, h0)
    ensures var n := c + HDR + SizeOf(Rd(m, c + 8)); var m' := m[n + 8 := SetPrevFree(Rd(m, n + 8))][n := c];
      && Loose(p, m', x, h, rank)
      && (!lost ==> HeapInv(m', x, h, rank, p.lo, p.hi))
      && (lost ==> Unmerged(m', x, h, rank, p.lo, p.hi, h0[c].left))
  {
    hide *;
    if !lost { MergedAfter(p, m0, x0, h0, rank0, c); }
    FreeingWords(p, m0, x0, h0, rank0, c, lost);
    MarkEnd(h0, c);
    GivenHeaders(p, m0, x0, h0, rank0, m, c, lost);
    GivenSize(m0, m, h0, c);
    var n := c + HDR + SizeOf(Rd(m, c + 8));
    var w := SetPrevFree(Rd(m, n + 8));
    LooseHeader(p, m, x, h, rank, n, true, w);
    LooseHeader(p, m[n + 8 := w], x, h, rank, n, false, c);
    if lost {
      GivenBeside(p, m0, x0, h0, rank0, c, m[n + 8 := w][n := c], x, h, rank);
    } else {
      MidOf(p, m[n + 8 := w][n := c], x, h, rank);
      Finish(p, m[n + 8 := w][n := c], x, h, rank);
    }
  }

  lemma MergedAfter(p: Plan, m: Mem, x: Index, h: Heap, rank: Ranks, c: nat)
    requires Mid(p, m, x, h, rank) && Freeing(p, m, h, c, false) && !h[End(h, c)].free && !LeftFree(h, c)
    ensures AllMerged(Mark(h, c, true))
  {
    MarkMerged(h, p.lo, p.hi, c, true);
  }

  lemma MarkEnd(h: Heap, c: nat)
    requires c in h && End(h, c) in h
    ensures End(h, c) in Mark(h, c, true) && c in Mark(h, c, true) && End(h, c) == c + HDR + h[c].size
  {
  }

  lemma LooseOf(p: Plan, m: Mem, x: Index, h: Heap, rank: Ranks)
    requires Mid(p, m, x, h, rank)
    ensures Loose(p, m, x, h, rank)
  {
  }

  lemma MidOf(p: Plan, m: Mem, x: Index, h: Heap, rank: Ranks)
    requires Loose(p, m, x, h, rank) && AllMerged(h)
    ensures Mid(p, m, x, h, rank)
  {
  }

  /** Merging leaves the size of b or more, and of the blocks merged only one. */
  lemma FreedBlocks(h0: Heap, lo: nat, hi: nat, h1: Heap, h2: Heap, h3: Heap, b: nat, c: nat, lost: bool)
    requires b in h0 && End(h0, b) in h0 && BlkOk(h0, lo, hi, b) && BlkOk(h0, lo, hi, End(h0, b))
    requires RightGone(h0, h1, b) && LeftGone(h1, h2, b, c, lost) && c in h2 && h3 == Mark(h2, c, true)
    ensures h3[c].size >= h0[b].size && Unused(h3, b)
    ensures h0[End(h0, b)].free ==> Unused(h3, End(h0, b))
    ensures LeftFree(h0, b) ==> Unused(h3, h0[b].left)
  {
  }

  lemma FreedResult(p: Plan, x0: Index, rank0: Ranks, m: Mem, x: Index, rank: Ranks, h0: Heap, h1: Heap, h2: Heap,
          h3: Heap, areas: seq<Area>, c: nat, lost: bool)
    requires Ready(p.m, x0, h0, rank0, p.lo, p.hi, p.b, lost) && AreasOk(h0, areas) && !IsStart(areas, p.b)
    requires p == FreePlan(p.m, h0, p.lo, p.hi, p.b)
    requires RightGone(h0, h1, p.b) && LeftGone(h1, h2, p.b, c, lost) && c in h2 && h3 == Mark(h2, c, true)
    requires Loose(p, m, x, h3, rank)
    ensures AreasOk(h3, areas) && Users(h3, areas) == Users(h0, areas) - {p.b}
    ensures UserDataKept(Users(h0, areas), p.m, m, p.b, 0)
    ensures h3[c].size >= h0[p.b].size
  {
    hide ListInv, DataKept, Track, AreasOk, HeadersBut, UserDataKept, RightGone, LeftGone, Mark;
    var b := p.b;
    assert BlkOk(h0, p.lo, p.hi, b) && BlkOk(h0, p.lo, p.hi, End(h0, b));
    FreedBlocks(h0, p.lo, p.hi, h1, h2, h3, b, c, lost);
    hide Tiled, AllMerged;
    forall t | t in p.touched && t != b ensures Unused(h0, t) && Unused(h3, t) {
    }
    UserResult(p, m, h3, areas);
    assert b !in Users(h3, areas);
  }

  /** Handing out block b for a request of s bytes: the rest, if any, becomes a block. */
  ghost function CarvePlan(m: Mem, h: Heap, lo: nat, hi: nat, b: nat, s: nat): Plan
    requires b in h
  {
    if s + 32 <= h[b].size then Plan(m, h, lo, hi, {b, b + HDR + s, End(h, b)}, {b, b + HDR + s}, b, 0)
    else Plan(m, h, lo, hi, {b, End(h, b)}, {b}, b, 0)
  }

  lemma CarvePlanParts(m: Mem, h: Heap, lo: nat, hi: nat, b: nat, s: nat)
    requires b in h
    ensures var p := CarvePlan(m, h, lo, hi, b, s);
      p.m == m && p.h == h && p.lo == lo && p.hi == hi && p.b == b && p.k == 0
  {
  }

  lemma CarveStart(p: Plan, x: Index, rank: Ranks, s: nat)
    requires HeapInv(p.m, x, p.h, rank, p.lo, p.hi) && p.b in p.h && p.h[p.b].free
    requires p == CarvePlan(p.m, p.h, p.lo, p.hi, p.b, s)
    ensures var b, h, n := p.b, p.h, End(p.h, p.b);
      && Mid(p, p.m, x, h, rank) && n in h && !h[n].free && h[b].size < MAX_SIZE
      && p.k == 0 && b in p.touched && {b, n} <= p.stale && !LeftFree(h, b)
      && (s + 32 <= h[b].size ==> {b + HDR + s} <= p.touched && {b + HDR + s} <= p.stale)
      && Rd(p.m, b + 8) == h[b].size + 1 && SizeOf(h[b].size + 1) == h[b].size && !IsPrevFree(h[b].size + 1)
      && Rd(p.m, n + 8) == h[n].size + 2 && Rd(p.m, n) == b && ClearPrevFree(h[n].size + 2) == h[n].size
  {
    var b, h, n := p.b, p.h, End(p.h, p.b);
    assert Merged(h, b) && BlkOk(h, p.lo, p.hi, b) && BlkOk(h, p.lo, p.hi, n);
    assert HeaderOk(p.m, h, b) && HeaderOk(p.m, h, n);
    NotBothFree(h, p.lo, p.hi, b);
    WordParts(h[b].size, true, false);
    WordParts(h[n].size, false, true);
  }

  lemma CarveWords(m: Mem, m': Mem, h: Heap, h': Heap, b: nat)
    requires b in h && End(h, b) in h && !LeftFree(h, b) && HeadersSame(m, m', h) && h' == Mark(h, b, false)
    ensures var n := End(h, b);
      && b in h' && n in h' && End(h', b) == n && !h'[b].free && h'[n].free == h[n].free && h'[b].size == h[b].size
      && !LeftFree(h', b)
      && Rd(m', b + 8) == Rd(m, b + 8) && Rd(m', n + 8) == Rd(m, n + 8) && Rd(m', n) == Rd(m, n)
  {
  }

  lemma CarvedSplit(p: Plan, x0: Index, rank0: Ranks, m: Mem, x: Index, h: Heap, rank: Ranks, s: nat)
    requires HeapInv(p.m, x0, p.h, rank0, p.lo, p.hi) && p.b in p.h && p.h[p.b].free && s + 32 <= p.h[p.b].size
    requires p == CarvePlan(p.m, p.h, p.lo, p.hi, p.b, s) && Halved(Mark(p.h, p.b, false), h, p.b, s)
    requires var b, n := p.b, End(p.h, p.b);
      HeaderOk(m, h, b + HDR + s) && Rd(m, b + 8) == s && Rd(m, n) == b + HDR + s && Rd(m, n + 8) == Rd(p.m, n + 8)
    ensures forall c :: c in p.stale ==> HeaderOk(m, h, c)
    ensures p.b in h && h[p.b].size == s && !h[p.b].free && Unused(h, p.b + HDR + s) && p.b + HDR + s !in p.h
  {
    hide ListInv;
    var b, n := p.b, End(p.h, p.b);
    assert Merged(p.h, b) && BlkOk(p.h, p.lo, p.hi, b) && BlkOk(p.h, p.lo, p.hi, n);
    assert HeaderOk(p.m, p.h, b) && HeaderOk(p.m, p.h, n);
    NotBothFree(p.h, p.lo, p.hi, b);
    WordParts(p.h[n].size, false, true);
  }

  lemma CarvedWhole(p: Plan, x0: Index, rank0: Ranks, m: Mem, x: Index, h: Heap, rank: Ranks, s: nat)
    requires HeapInv(p.m, x0, p.h, rank0, p.lo, p.hi) && p.b in p.h && p.h[p.b].free && p.h[p.b].size < s + 32
    requires p == CarvePlan(p.m, p.h, p.lo, p.hi, p.b, s) && h == Mark(p.h, p.b, false)
    requires var b, n := p.b, End(p.h, p.b);
      Rd(m, b + 8) == ClearFree(Rd(p.m, b + 8)) && Rd(m, n + 8) == ClearPrevFree(Rd(p.m, n + 8))
    ensures forall c :: c in p.stale ==> HeaderOk(m, h, c)
    ensures p.b in h && h[p.b].size == p.h[p.b].size && !h[p.b].free
  {
    hide ListInv;
    var b, n := p.b, End(p.h, p.b);
    assert Merged(p.h, b) && BlkOk(p.h, p.lo, p.hi, b) && BlkOk(p.h, p.lo, p.hi, n);
    assert HeaderOk(p.m, p.h, b) && HeaderOk(p.m, p.h, n);
    NotBothFree(p.h, p.lo, p.hi, b);
    WordParts(p.h[b].size, true, false);
    WordParts(p.h[n].size, false, true);
  }

  lemma CarvedResult(p: Plan, x0: Index, rank0: Ranks, m: Mem, x: Index, h: Heap, rank: Ranks, areas: seq<Area>, s: nat)
    requires HeapInv(p.m, x0, p.h, rank0, p.lo, p.hi) && p.b in p.h && p.h[p.b].free && AreasOk(p.h, areas)
    requires p == CarvePlan(p.m, p.h, p.lo, p.hi, p.b, s) && Mid(p, m, x, h, rank) && s > 0
    requires p.b in h && !h[p.b].free && h[p.b].size > 0
    requires s + 32 <= p.h[p.b].size ==> Unused(h, p.b + HDR + s) && p.b + HDR + s !in p.h
    ensures AreasOk(h, areas) && Users(h, areas) == Users(p.h, areas)[p.b := h[p.b].size]
    ensures UserDataKept(Users(p.h, areas), p.m, m, p.b, 0)
  {
    hide ListInv, DataKept, Track, AreasOk, HeadersBut, UserDataKept;
    assert BlkOk(p.h, p.lo, p.hi, p.b);
    CarveStart(p, x0, rank0, s);
    NotStart(p.h, areas, p.b);
    UserResult(p, m, h, areas);
    Spliced(Users(h, areas), Users(p.h, areas), p.b, h[p.b].size);
  }

  lemma Spliced(u: map<nat, nat>, u0: map<nat, nat>, b: nat, v: nat)
    requires u - {b} == u0 - {b} && b in u && u[b] == v
    ensures u == u0[b := v]
  {
    var rest := u - {b};
    forall c | c in u || c in u0 ensures c != b ==> c in u && c in u0 && u[c] == rest[c] == u0[c] {
      assert c != b ==> c in rest && rest == u0 - {b};
    }
  }

  lemma NotStart(h: Heap, areas: seq<Area>, b: nat)
    requires AreasOk(h, areas) && b in h && h[b].free
    ensures !IsStart(areas, b)
  {
    forall i | 0 <= i < |areas| ensures areas[i].start != b {
      assert AreaOk(h, areas[i]);
    }
  }

  function RoundUp(v: nat): nat {
    v + (16 - v % 16) % 16
  }

  lemma RoundUpBy(v: nat)
    ensures v <= RoundUp(v) < v + 16 && RoundUp(v) % 16 == 0 && (v % 16 == 0 ==> RoundUp(v) == v)
  {
    var q, r := v / 16, v % 16;
    assert v == 16 * q + r;
    if r > 0 { QuotientUnique(v + (16 - r), 16, q + 1, 0); }
  }

  /** A request in bytes, as blocks are measured. */
  function Request(size: nat): nat {
    if size < 16 then 16 else RoundUp(size)
  }

  /** The request is within the allocator's range of sizes. */
  predicate InRange(size: nat) {
    Request(size) < MAX_SIZE && Rounded(Request(size)) < MAX_SIZE
  }

  /** Size of the area that is asked for when no free block is large enough. */
  function AreaSize(size: nat): (n: nat)
    requires InRange(size)
    ensures n >= 10240 && n >= Rounded(Request(size)) + 128
  {
    var s := Rounded(Request(size)) + 8 * HDR;
    if s > 10240 then s else 10240
  }

  /** Memory this takes from the break. */
  function Taken(size: nat): nat
    requires InRange(size)
  {
    RoundUp(AreaSize(size))
  }

  /** Some free block is large enough for the request. */
  ghost predicate Fits(h: Heap, size: nat)
    requires InRange(size)
  {
    exists b :: b in h && h[b].free && h[b].size >= Rounded(Request(size))
  }

  /** There is neither such a block nor memory for a new area. */
  ghost predicate NoMemory(h: Heap, size: nat, brk: nat, limit: nat)
    requires InRange(size)
  {
    !Fits(h, size) && brk + Taken(size) > limit
  }

  lemma RequestFixed(size: nat)
    ensures Request(size) % 16 == 0 && Request(Request(size)) == Request(size) && Request(size) >= size
    ensures Request(size) >= 16
  {
    hide RoundUp;
    RoundUpBy(16);
    RoundUpBy(size);
    RoundUpBy(RoundUp(size));
  }

  lemma RequestRounds(size: nat)
    requires InRange(size)
    ensures var s := Rounded(Request(size));
      && Request(size) % 16 == 0 && s % 16 == 0 && s >= Request(size) >= size && Request(size) >= 16
      && Rounded(s) == s
  {
    hide Rounded;
    RequestFixed(size);
    hide Request, RoundUp;
    var s := Request(size);
    MultipleOfFour(s);
    RoundedAligned(s, 16);
    RoundedIsClassMin(s);
    RoundedTwice(s);
  }

  /** A block is at most a 32nd and 64 bytes larger than what was asked for. */
  lemma LittleWaste(size: nat)
    requires InRange(size)
    ensures Rounded(Request(size)) + 32 <= size + size / 32 + 64
  {
    RequestClose(size);
    RoundedClose(Request(size));
    hide Request, Rounded;
  }

  lemma RequestClose(size: nat)
    ensures Request(size) <= size + 16
  {
    RoundUpBy(size);
  }

  lemma MultipleOfFour(s: nat)
    requires s % 16 == 0
    ensures s % 4 == 0
  {
    assert s == 16 * (s / 16);
    QuotientUnique(s, 4, 4 * (s / 16), 0);
  }

  /** The search finds a block exactly when there is one that is large enough. */
  lemma FindFits(m: Mem, x: Index, h: Heap, rank: Ranks, lo: nat, hi: nat, s: nat)
    requires HeapInv(m, x, h, rank, lo, hi) && s < MAX_SIZE && s % 16 == 0 && Rounded(s) < MAX_SIZE
    ensures Shaped(x) && InMatrix(Search(s))
    ensures var (b, d) := Find(x, Search(s));
      && (b != 0 ==> b in h && h[b].free && h[b].size >= Rounded(s) && InMatrix(d) && d == ClassOf(h[b].size)
                     && Head(x, d) == b && PrevFree(m, b) == 0)
      && (b == 0 ==> forall c :: c in h && h[c].free ==> h[c].size < Rounded(s))
  {
    hide HeapInv, Find, Search, Rounded, Head, ClassOf;
    MultipleOfFour(s);
    RoundedIsClassMin(s);
    ListsIn(m, x, h, rank, lo, hi);
    FindFirst(x, Search(s));
    var (b, d) := Find(x, Search(s));
    if b != 0 {
      FoundFits(m, x, h, rank, lo, hi, s, b, d);
    } else {
      forall c | c in h && h[c].free ensures h[c].size < Rounded(s) {
        NoneFits(m, x, h, rank, lo, hi, s, c);
      }
    }
  }

  lemma ListsIn(m: Mem, x: Index, h: Heap, rank: Ranks, lo: nat, hi: nat)
    requires HeapInv(m, x, h, rank, lo, hi)
    ensures Shaped(x) && BitsExact(x)
  {
  }

  lemma FoundFits(m: Mem, x: Index, h: Heap, rank: Ranks, lo: nat, hi: nat, s: nat, b: nat, d: Class)
    requires HeapInv(m, x, h, rank, lo, hi) && s < MAX_SIZE && s % 4 == 0 && Rounded(s) < MAX_SIZE
    requires Shaped(x) && InMatrix(d) && NotBefore(d, Search(s)) && Head(x, d) == b != 0
    ensures b in h && h[b].free && h[b].size >= Rounded(s) && d == ClassOf(h[b].size) && PrevFree(m, b) == 0
  {
    hide Search, Rounded, BitsExact, Headers, Insert, NotBefore;
    assert HeadOk(m, x, FreeOf(h), d);
    assert BlkOk(h, lo, hi, b);
    GoodFit(s, h[b].size);
  }

  lemma NoneFits(m: Mem, x: Index, h: Heap, rank: Ranks, lo: nat, hi: nat, s: nat, c: nat)
    requires HeapInv(m, x, h, rank, lo, hi) && s < MAX_SIZE && s % 4 == 0 && Rounded(s) < MAX_SIZE && c in h
    requires h[c].free
    requires Shaped(x) && forall e: Class :: InMatrix(e) && NotBefore(e, Search(s)) ==> Head(x, e) == 0
    ensures h[c].size < Rounded(s)
  {
    hide Search, Rounded, BitsExact, Headers, Insert, NotBefore, Head;
    assert BlkOk(h, lo, hi, c);
    GoodFit(s, h[c].size);
    MemberHasHead(m, x, FreeOf(h), rank, c);
  }

  lemma UsersNotZero(m: Mem, x: Index, h: Heap, rank: Ranks, lo: nat, hi: nat, areas: seq<Area>)
    requires HeapInv(m, x, h, rank, lo, hi)
    ensures 0 !in Users(h, areas)
  {
    ZeroNoUser(m, x, h, rank, lo, hi, areas);
  }

  /** Memory beyond the break is outside all blocks, and no area starts there. */
  lemma BelowBreak(m: Mem, x: Index, h: Heap, rank: Ranks, lo: nat, hi: nat, areas: seq<Area>, brk: nat, size: nat)
    requires HeapInv(m, x, h, rank, lo, hi) && AreasOk(h, areas) && hi <= brk && size >= 80
    ensures Outside(h, brk, size) && !Clobbers(h, areas, AreaAt(brk, size))
  {
    hide ListInv, Headers;
    forall c | c in h ensures End(h, c) <= brk {
      assert BlkOk(h, lo, hi, c);
    }
    forall j | 0 <= j < |areas| ensures areas[j].start < brk {
      assert AreaOk(h, areas[j]);
    }
  }

  lemma UserSizes(m: Mem, x: Index, h: Heap, rank: Ranks, lo: nat, hi: nat, b: nat)
    requires HeapInv(m, x, h, rank, lo, hi) && b in h
    ensures h[b].size % 16 == 0
  {
    assert BlkOk(h, lo, hi, b);
  }

  lemma UserChain(u: map<nat, nat>, m: Mem, m1: Mem, m2: Mem, b: nat)
    requires UserDataKept(u, m, m1, 0, 0) && UserDataKept(u, m1, m2, b, 0) && b !in u && 0 !in u
    ensures UserDataKept(u, m, m2, 0, 0)
  {
  }

  // ---- resizing in place ----

  function Min(a: nat, b: nat): nat {
    if a < b then a else b
  }

  ghost predicate RightFree(h: Heap, b: nat) {
    b in h && End(h, b) in h && h[End(h, b)].free
  }

  /** Size of b with its right neighbour, if that is free. */
  ghost function Total(h: Heap, b: nat): nat
    requires b in h
  {
    if RightFree(h, b) then h[b].size + HDR + h[End(h, b)].size else h[b].size
  }

  /** Making block b s bytes, from its own and a free right neighbour's. */
  ghost function ResizePlan(m: Mem, h: Heap, lo: nat, hi: nat, b: nat, s: nat): Plan
    requires b in h
  {
    var r, n, k := End(h, b), b + HDR + Total(h, b), Min(h[b].size, s);
    var joined := if RightFree(h, b) then {b, r} else {b};
    if s + 32 <= Total(h, b) then Plan(m, h, lo, hi, joined + {n, b + HDR + s}, joined + {b + HDR + s}, b, k)
    else Plan(m, h, lo, hi, joined + {n}, joined, b, k)
  }

  lemma ResizePlanParts(m: Mem, h: Heap, lo: nat, hi: nat, b: nat, s: nat)
    requires b in h
    ensures var p := ResizePlan(m, h, lo, hi, b, s);
      && p.m == m && p.h == h && p.lo == lo && p.hi == hi && p.b == b && p.k == Min(h[b].size, s)
      && b in p.touched && {b, b + HDR + Total(h, b)} <= p.stale
      && (RightFree(h, b) ==> {End(h, b)} <= p.touched && {End(h, b)} <= p.stale)
      && (s + 32 <= Total(h, b) ==> {b + HDR + s} <= p.touched && {b + HDR + s} <= p.stale)
  {
  }

  /** What realloc_ex reads about a user's block b and its right neighbour r. */
  lemma ResizeReads(m: Mem, x: Index, h: Heap, rank: Ranks, lo: nat, hi: nat, areas: seq<Area>, b: nat, r: nat)
    requires HeapInv(m, x, h, rank, lo, hi) && b in Users(h, areas) && b in h && r == b + HDR + h[b].size
    ensures b in h && !h[b].free && h[b].size > 0 && r in h && End(h, b) == r && h[b].size % 16 == 0
    ensures SizeOf(Rd(m, b + 8)) == h[b].size && Rd(m, b + 8) == h[b].size + (if LeftFree(h, b) then 2 else 0)
    ensures IsPrevFree(Rd(m, b + 8)) == LeftFree(h, b) && (LeftFree(h, b) ==> Rd(m, b) == h[b].left)
    ensures SizeOf(Rd(m, r + 8)) == h[r].size && IsFree(Rd(m, r + 8)) == h[r].free
    ensures h[r].free ==> h[r].size >= 16 && h[r].size % 16 == 0
  {
    hide ListInv;
    assert BlkOk(h, lo, hi, b) && BlkOk(h, lo, hi, r);
    assert HeaderOk(m, h, b) && HeaderOk(m, h, r);
    WordParts(h[b].size, false, LeftFree(h, b));
    WordParts(h[r].size, h[r].free, false);
  }

  /** The block n after b and its free right neighbour is used. */
  lemma ResizeNext(m: Mem, x: Index, h: Heap, rank: Ranks, lo: nat, hi: nat, areas: seq<Area>, b: nat, n: nat)
    requires HeapInv(m, x, h, rank, lo, hi) && b in Users(h, areas) && b in h && n == b + HDR + Total(h, b)
    ensures n in h && !h[n].free && n > b
    ensures Rd(m, n + 8) == h[n].size + (if RightFree(h, b) then 2 else 0)
    ensures SetPrevFree(Rd(m, n + 8)) == h[n].size + 2 && ClearPrevFree(Rd(m, n + 8)) == h[n].size
    ensures SetPrevFree(h[n].size) == h[n].size + 2
  {
    hide ListInv;
    var r := End(h, b);
    assert BlkOk(h, lo, hi, b) && BlkOk(h, lo, hi, r) && Merged(h, r);
    assert n == (if h[r].free then End(h, r) else r);
    assert BlkOk(h, lo, hi, n) && HeaderOk(m, h, n);
    WordParts(h[n].size, false, true);
    WordParts(h[n].size, false, false);
  }

  lemma ResizeStart(p: Plan, x: Index, rank: Ranks, areas: seq<Area>, s: nat)
    requires HeapInv(p.m, x, p.h, rank, p.lo, p.hi) && p.b in Users(p.h, areas) && p.b in p.h
    requires p == ResizePlan(p.m, p.h, p.lo, p.hi, p.b, s)
    ensures Mid(p, p.m, x, p.h, rank)
  {
    Start(p, x, rank);
  }

  /** Block b after it has absorbed its right neighbour, if that was free; n comes after it. */
  ghost predicate Widened(h0: Heap, h: Heap, b: nat, n: nat) {
    && b in h0 && b in h && h[b] == h0[b].(size := Total(h0, b)) && !h[b].free && n == End(h, b)
    && n in h0 && !h0[n].free && n in h && h[n] == h0[n].(left := b)
    && LeftFree(h, b) == LeftFree(h0, b)
    && (RightFree(h0, b) ==> End(h0, b) !in h)
    && (forall c :: c in h ==> c in h0)
  }

  lemma WidenedBy(h: Heap, h': Heap, lo: nat, hi: nat, b: nat, n: nat)
    requires Tiled(h, lo, hi) && RightFree(h, b) && !h[b].free && Joined(h, h', b)
    requires n == b + HDR + Total(h, b) && n in h && !h[n].free
    ensures Widened(h, h', b, n)
  {
    assert BlkOk(h, lo, hi, b);
  }

  lemma WidenedHere(m: Mem, x: Index, h: Heap, rank: Ranks, lo: nat, hi: nat, b: nat, n: nat)
    requires HeapInv(m, x, h, rank, lo, hi) && b in h && !RightFree(h, b) && !h[b].free
    requires n == End(h, b) && n in h && !h[n].free && h[b].size > 0
    ensures Widened(h, h, b, n)
  {
    hide ListInv;
    WidenedSame(h, lo, hi, b, n);
  }

  lemma WidenedReads(m: Mem, m1: Mem, x: Index, h: Heap, rank: Ranks, lo: nat, hi: nat, h1: Heap, b: nat, n: nat)
    requires HeapInv(m, x, h, rank, lo, hi) && RightFree(h, b) && !h[b].free && Joined(h, h1, b)
    requires HeadersSame(m, m1, h)
    requires n == b + HDR + Total(h, b) && n in h && !h[n].free
    ensures Widened(h, h1, b, n) && b in h1 && h1[b].size == Total(h, b) && !h1[b].free && End(h1, b) == n
    ensures n in h1 && !h1[n].free
    ensures Rd(m1, b) == Rd(m, b) && Rd(m1, b + 8) == Rd(m, b + 8) && Rd(m1, n + 8) == Rd(m, n + 8)
    ensures Rd(m1, End(h, b) + 8) == Rd(m, End(h, b) + 8) && LeftFree(h1, b) == LeftFree(h, b)
  {
    hide ListInv;
    WidenedBy(h, h1, lo, hi, b, n);
  }

  lemma Unresized(h: Heap, areas: seq<Area>, b: nat, m: Mem, k: nat)
    requires b in Users(h, areas)
    ensures b in h && Users(h, areas) == Users(h, areas)[b := h[b].size] && UserDataKept(Users(h, areas), m, m, b, k)
  {
  }

  lemma WidenedSame(h: Heap, lo: nat, hi: nat, b: nat, n: nat)
    requires Tiled(h, lo, hi) && b in h && !RightFree(h, b) && !h[b].free && n == End(h, b) && n in h && !h[n].free
    requires h[b].size > 0
    ensures Widened(h, h, b, n)
  {
    assert BlkOk(h, lo, hi, b);
  }

  /** All headers are up to date after a split. */
  lemma ResizedSplit(p: Plan, x0: Index, rank0: Ranks, m: Mem, h1: Heap, h: Heap, n: nat, s: nat)
    requires HeapInv(p.m, x0, p.h, rank0, p.lo, p.hi) && p.b in p.h && p == ResizePlan(p.m, p.h, p.lo, p.hi, p.b, s)
    requires p.h[p.b].size > 0 && s > 0
    requires Widened(p.h, h1, p.b, n) && s + 32 <= Total(p.h, p.b) && Halved(h1, h, p.b, s)
    requires var b := p.b; HeaderOk(m, h, b + HDR + s) && Rd(m, b + 8) == s + (if LeftFree(h1, b) then 2 else 0)
    requires Rd(m, p.b) == Rd(p.m, p.b) && Rd(m, n) == p.b + HDR + s
    ensures forall c :: c in p.stale ==> HeaderOk(m[n + 8 := p.h[n].size + 2], h, c)
    ensures p.b in h && h[p.b].size == s && !h[p.b].free
    ensures forall t :: t in p.touched && t != p.b ==> Unused(p.h, t) && Unused(h, t)
  {
    hide ListInv, Halved, ResizePlan;
    var b, r, b2 := p.b, End(p.h, p.b), p.b + HDR + s;
    ResizeSets(p.m, p.h, p.lo, p.hi, b, s);
    WidenedLeft(p.m, x0, p.h, rank0, p.lo, p.hi, h1, b, n, s);
    SplitParts(m[n + 8 := p.h[n].size + 2], h1, h, b, n, s);
    if RightFree(p.h, b) { SplitKeys(h1, h, b, s, r); }
  }

  lemma ResizeSets(m: Mem, h: Heap, lo: nat, hi: nat, b: nat, s: nat)
    requires b in h && s + 32 <= Total(h, b)
    ensures var p := ResizePlan(m, h, lo, hi, b, s); var n := b + HDR + Total(h, b);
      && (forall c :: c in p.stale ==> c == b || c == n || c == b + HDR + s || (RightFree(h, b) && c == End(h, b)))
      && (forall c :: c in p.touched ==> c == b || c == b + HDR + s || (RightFree(h, b) && c == End(h, b)))
  {
  }

  lemma WidenedLeft(m: Mem, x: Index, h: Heap, rank: Ranks, lo: nat, hi: nat, h1: Heap, b: nat, n: nat, s: nat)
    requires HeapInv(m, x, h, rank, lo, hi) && Widened(h, h1, b, n) && s + 32 <= Total(h, b) && h[b].size > 0
    ensures LeftFree(h1, b) ==> Rd(m, b) == h1[b].left
    ensures h1[b].left != b + HDR + s && h1[b].left != n && h1[b].left != b
    ensures n == b + HDR + Total(h, b) && (b + HDR + s in h ==> RightFree(h, b) && b + HDR + s == End(h, b))
  {
    hide ListInv;
    assert HeaderOk(m, h, b) && BlkOk(h, lo, hi, b);
    if b + HDR + s in h { InsidePair(h, lo, hi, b, b + HDR + s); }
  }

  lemma SplitParts(m: Mem, h1: Heap, h: Heap, b: nat, n: nat, s: nat)
    requires Halved(h1, h, b, s) && !h1[b].free && n == End(h1, b) && n in h1 && !h1[n].free
    requires Rd(m, b + 8) == s + (if LeftFree(h1, b) then 2 else 0) && (LeftFree(h1, b) ==> Rd(m, b) == h1[b].left)
    requires h1[b].left != b + HDR + s && h1[b].left != n && h1[b].left != b
    requires Rd(m, n) == b + HDR + s && Rd(m, n + 8) == h1[n].size + 2
    ensures HeaderOk(m, h, b) && HeaderOk(m, h, n)
    ensures b in h && h[b].size == s && !h[b].free && Unused(h, b + HDR + s)
  {
  }

  lemma SplitKeys(h1: Heap, h: Heap, b: nat, s: nat, r: nat)
    requires Halved(h1, h, b, s) && r !in h1
    ensures Unused(h, r) && (r != b + HDR + s ==> r !in h)
  {
  }

  /** The only block inside b and its free right neighbour is that neighbour. */
  lemma InsidePair(h: Heap, lo: nat, hi: nat, b: nat, c: nat)
    requires Tiled(h, lo, hi) && b in h && c in h && b < c < b + HDR + Total(h, b)
    ensures RightFree(h, b) && c == End(h, b)
  {
    InOrder(h, b, c);
    if RightFree(h, b) { InOrder(h, End(h, b), c); }
  }

  lemma ResizedWhole(p: Plan, x0: Index, rank0: Ranks, m: Mem, h: Heap, n: nat, s: nat)
    requires HeapInv(p.m, x0, p.h, rank0, p.lo, p.hi) && p.b in p.h && p == ResizePlan(p.m, p.h, p.lo, p.hi, p.b, s)
    requires Widened(p.h, h, p.b, n) && s <= Total(p.h, p.b) < s + 32
    requires Rd(m, p.b + 8) == h[p.b].size + (if LeftFree(h, p.b) then 2 else 0) && Rd(m, p.b) == Rd(p.m, p.b)
    requires Rd(m, n + 8) == p.h[n].size
    ensures forall c :: c in p.stale ==> HeaderOk(m, h, c)
    ensures p.b in h && s <= h[p.b].size < s + 32 && !h[p.b].free
    ensures forall t :: t in p.touched && t != p.b ==> Unused(p.h, t) && Unused(h, t)
  {
    hide ListInv;
    assert HeaderOk(p.m, p.h, p.b);
  }

  lemma GrowWord(m: Mem, m': Mem, b: nat, n: nat, v: nat)
    requires m' == m[b + 8 := v] && b + 16 <= n
    ensures Rd(m', b + 8) == v && Rd(m', b) == Rd(m, b) && Rd(m', n + 8) == Rd(m, n + 8)
  {
  }

  lemma GrowLinks(m: Mem, m': Mem, b: nat, n: nat, v: nat)
    requires b + 16 <= n && m' == m[n := b][n + 8 := ClearPrevFree(Rd(m[n := b], n + 8))]
    requires ClearPrevFree(Rd(m, n + 8)) == v
    ensures Rd(m', b + 8) == Rd(m, b + 8) && Rd(m', b) == Rd(m, b) && Rd(m', n + 8) == v
  {
  }

  lemma GrownWord(t: nat, rs: nat, f: bool)
    requires t % 16 == 0 && rs % 16 == 0
    ensures (t + HDR + rs) % 16 == 0
    ensures var w := t + (if f then 2 else 0) + rs + HDR;
      SizeOf(w) == t + HDR + rs && IsPrevFree(w) == f
  {
    SumAligned(t, rs);
    WordParts(t + HDR + rs, false, f);
  }

  lemma ResizeResult(p: Plan, x0: Index, rank0: Ranks, m: Mem, x: Index, h: Heap, rank: Ranks, areas: seq<Area>, s: nat)
    requires HeapInv(p.m, x0, p.h, rank0, p.lo, p.hi) && p.b in Users(p.h, areas) && p.b in p.h && AreasOk(p.h, areas)
    requires p == ResizePlan(p.m, p.h, p.lo, p.hi, p.b, s) && Mid(p, m, x, h, rank) && s > 0
    requires p.b in h && h[p.b].size >= s && !h[p.b].free
    requires forall t :: t in p.touched && t != p.b ==> Unused(p.h, t) && Unused(h, t)
    ensures AreasOk(h, areas) && Users(h, areas) == Users(p.h, areas)[p.b := h[p.b].size]
    ensures UserDataKept(Users(p.h, areas), p.m, m, p.b, Min(p.h[p.b].size, s))
  {
    hide ListInv, DataKept, Track, AreasOk, HeadersBut, UserDataKept;
    UserResult(p, m, h, areas);
    Spliced(Users(h, areas), Users(p.h, areas), p.b, h[p.b].size);
  }

  // ---- copying ----

  ghost function CopyPlan(m: Mem, h: Heap, lo: nat, hi: nat, c: nat): Plan {
    Plan(m, h, lo, hi, {}, {c}, c, 0)
  }

  lemma CopyReads(p: Plan, m: Mem, x: Index, h: Heap, rank: Ranks, areas: seq<Area>, b: nat, i: nat)
    requires Mid(p, m, x, h, rank) && p.touched == {p.b} && p.k == 0 && b in Users(p.h, areas) && b != p.b
    requires b in p.h && i < p.h[b].size
    ensures Rd(m, b + HDR + i) == Rd(p.m, b + HDR + i)
  {
    assert InPayload(p.h, b, b + HDR + i);
    assert Protected(p, b + HDR + i);
  }

  lemma CopyDone(p: Plan, m: Mem, x: Index, h: Heap, rank: Ranks, areas: seq<Area>)
    requires Mid(p, m, x, h, rank) && p == CopyPlan(p.m, h, p.lo, p.hi, p.b) && AreasOk(h, areas)
    requires p.b in Users(h, areas)
    ensures HeapInv(m, x, h, rank, p.lo, p.hi) && UserDataKept(Users(h, areas), p.m, m, p.b, 0)
  {
    hide ListInv, Track, DataKept;
    Finish(p, m, x, h, rank);
    UserResult(p, m, h, areas);
  }

  /** Data of a block handed out, copied to, and still there after the old one is freed. */
  lemma MoveChain(u: map<nat, nat>, u1: map<nat, nat>, m: Mem, m1: Mem, m2: Mem, m3: Mem, b: nat, c: nat)
    requires b in u && c !in u && b != c && 0 !in u && c in u1 && u1 == u[c := u1[c]]
    requires UserDataKept(u, m, m1, 0, 0) && UserDataKept(u1, m1, m2, c, 0) && UserDataKept(u1, m2, m3, b, 0)
    ensures UserDataKept(u, m, m3, b, 0)
    ensures SameWords(m2, c + HDR, m3, c + HDR, u1[c]) && SameWords(m, b + HDR, m1, b + HDR, u[b])
  {
    var at, from := c + HDR, b + HDR;
    forall i: nat | i < u1[c] ensures WordAt(m3, at, i) == WordAt(m2, at, i) {
    }
    forall i: nat | i < u[b] ensures WordAt(m1, from, i) == WordAt(m, from, i) {
    }
    forall d: nat, a: nat | d in u && d + HDR <= a < d + HDR + (if d == b then 0 else u[d]) ensures Rd(m3, a) == Rd(m, a) {
      assert d in u1 && u1[d] == u[d];
    }
  }

  function WordAt(m: Mem, a: nat, i: nat): nat {
    Rd(m, a + i)
  }

  /** The words among the n bytes from a on in m are those from a' on in m'. */
  ghost predicate SameWords(m: Mem, a: nat, m': Mem, a': nat, n: nat) {
    forall i: nat :: i < n && i % 8 == 0 ==> WordAt(m', a', i) == WordAt(m, a, i)
  }

  /** What realloc does to the users' blocks: block b becomes block c, in place or anew. */
  ghost predicate Reallocated(u: map<nat, nat>, u': map<nat, nat>, b: nat, c: nat, size: nat) {
    (c == b || c !in u) && c in u' && u'[c] >= size && u' == (u - {b})[c := u'[c]]
  }

  /** A user's block is hardly larger than asked for. */
  ghost predicate Tight(u: map<nat, nat>, c: nat, size: nat)
    requires InRange(size)
  {
    c in u && u[c] < Rounded(Request(size)) + 32
  }

  lemma WroteWord(m: Mem, a: nat, m1: Mem, m2: Mem, a': nat, i: nat)
    requires SameWords(m, a, m1, a', i) && i % 8 == 0 && m2 == m1[a' + i := Rd(m, a + i)]
    ensures SameWords(m, a, m2, a', i + 8)
  {
    forall j: nat | j < i + 8 && j % 8 == 0 ensures WordAt(m2, a', j) == WordAt(m, a, j) {
      assert j < i ==> WordAt(m1, a', j) == WordAt(m, a, j);
    }
  }

  lemma Nothing(u: map<nat, nat>, m: Mem, b: nat, k: nat)
    requires b !in u
    ensures UserDataKept(u, m, m, b, k) && u - {} == u
  {
  }

  lemma SomeUsers(u: map<nat, nat>, m: Mem, b: nat)
    ensures UserDataKept(u, m, m, b, 0)
  {
  }

  lemma SameMemory(h: Heap, size: nat, brk: nat, limit: nat)
    requires InRange(size)
    ensures InRange(Request(size)) && NoMemory(h, Request(size), brk, limit) == NoMemory(h, size, brk, limit)
  {
    hide Request, Rounded, Taken, Fits;
    RoundedRequest(size);
  }

  /** Blocks start after a header's length. */
  lemma HeaderAt(m: Mem, x: Index, h: Heap, rank: Ranks, lo: nat, hi: nat, b: nat)
    requires HeapInv(m, x, h, rank, lo, hi) && b in h
    ensures b > 0
  {
    assert BlkOk(h, lo, hi, b);
  }

  lemma UserParts(h: Heap, areas: seq<Area>, b: nat)
    requires b in Users(h, areas)
    ensures b in h && Users(h, areas)[b] == h[b].size && !h[b].free
  {
  }

  lemma StaysPut(u: map<nat, nat>, m: Mem, m': Mem, b: nat, k: nat, k': nat)
    requires UserDataKept(u, m, m', b, k) && b in u && k' <= k
    ensures UserDataKept(u, m, m', b, 0) && SameWords(m, b + HDR, m', b + HDR, k')
  {
    var at := b + HDR;
    forall i: nat | i < k' ensures WordAt(m', at, i) == WordAt(m, at, i) {
      assert b + HDR <= b + HDR + i < b + HDR + k;
    }
  }

  lemma Replaced(u: map<nat, nat>, b: nat, v: nat)
    ensures Reallocated(u, u[b := v], b, b, v)
  {
  }

  lemma Moved(u: map<nat, nat>, u1: map<nat, nat>, b: nat, c: nat, size: nat)
    requires c in u1 && u1 == u[c := u1[c]] && b != c && c !in u && u1[c] >= size
    ensures Reallocated(u, u1 - {b}, b, c, size)
  {
  }

  lemma UserWord(m: Mem, x: Index, h: Heap, rank: Ranks, lo: nat, hi: nat, areas: seq<Area>, b: nat)
    requires HeapInv(m, x, h, rank, lo, hi) && b in Users(h, areas)
    ensures SizeOf(Rd(m, b + 8)) == Users(h, areas)[b] && Users(h, areas)[b] % 8 == 0
  {
    hide HeapInv, SizeOf, IsFree, IsPrevFree, Rd;
    ResizeReads(m, x, h, rank, lo, hi, areas, b, b + HDR + h[b].size);
  }

  lemma CopyStart(m: Mem, x: Index, h: Heap, rank: Ranks, lo: nat, hi: nat, areas: seq<Area>, b: nat, c: nat)
    requires HeapInv(m, x, h, rank, lo, hi) && b in Users(h, areas) && c in Users(h, areas)
    ensures Mid(CopyPlan(m, h, lo, hi, c), m, x, h, rank)
    ensures b in h && c in h && !h[c].free && h[b].size == Users(h, areas)[b] && h[c].size == Users(h, areas)[c]
  {
    Start(CopyPlan(m, h, lo, hi, c), x, rank);
  }

  lemma MallocKeeps(u: map<nat, nat>, u1: map<nat, nat>, m: Mem, m1: Mem, b: nat, c: nat)
    requires b in u && c in u1 && c !in u && u1 == u[c := u1[c]] && UserDataKept(u, m, m1, 0, 0) && 0 !in u
    ensures b in u1 && b != c && u1[b] == u[b]
  {
  }

  lemma Fresh(u: map<nat, nat>, u': map<nat, nat>, c: nat, size: nat)
    requires 0 !in u && c !in u && c in u' && u' == u[c := u'[c]] && u'[c] >= size
    ensures Reallocated(u, u', 0, c, size)
  {
    assert u - {0} == u;
  }

  lemma Enough(u: map<nat, nat>, u': map<nat, nat>, b: nat, c: nat, s: nat, size: nat)
    requires Reallocated(u, u', b, c, s) && size <= s
    ensures Reallocated(u, u', b, c, size)
  {
  }

  lemma WordsChain(m: Mem, m1: Mem, m2: Mem, m3: Mem, a: nat, a': nat, t: nat, n: nat, v: nat)
    requires SameWords(m, a, m1, a, t) && SameWords(m1, a, m2, a', n) && SameWords(m2, a', m3, a', v) && n <= t
    requires n <= v
    ensures SameWords(m, a, m3, a', n)
  {
    forall i: nat | i < n && i % 8 == 0 ensures WordAt(m3, a', i) == WordAt(m, a, i) {
      assert WordAt(m1, a, i) == WordAt(m, a, i) && WordAt(m2, a', i) == WordAt(m1, a, i);
    }
  }

  lemma NoWords(m: Mem, a: nat, a': nat)
    ensures SameWords(m, a, m, a', 0)
  {
  }

  lemma FewerWords(m: Mem, m': Mem, a: nat, a': nat, n: nat, k: nat)
    requires SameWords(m, a, m', a', n) && k <= n
    ensures SameWords(m, a, m', a', k)
  {
  }

  /** A request already rounded up to whole units is served just as well. */
  lemma RoundedRequest(size: nat)
    requires InRange(size)
    ensures InRange(Request(size)) && Request(Request(size)) == Request(size) && Request(size) % 16 == 0
    ensures Taken(Request(size)) == Taken(size) && forall h: Heap :: Fits(h, Request(size)) == Fits(h, size)
  {
    hide Rounded, RoundUp;
    RequestFixed(size);
    hide Request;
  }

  /** Whether a user's block b can become s bytes without moving: it shrinks, or its right
      neighbour is free and, not counting that one's header, large enough. */
  ghost predicate InPlace(h: Heap, b: nat, s: nat)
    requires b in h
  {
    s <= h[b].size || (RightFree(h, b) && s <= h[b].size + h[End(h, b)].size)
  }

  // ---- starting ----

  /** Size of the allocator's control structure, rounded up to 16 bytes. */
  const CONTROL: nat := 6272

  function NoLists(): Index {
    var row: seq<nat> := seq(MAX_SLI, (_: nat) => 0);
    var zero: Word := 0;
    Index(seq(REAL_FLI, (_: nat) => row), seq(REAL_FLI, (_: nat) => zero), zero)
  }

  lemma NoBlocks(m: Mem, lo: nat, hi: nat)
    requires hi <= lo + MAX_SIZE
    ensures HeapInv(m, NoLists(), map[], map[], lo, hi) && AreasOk(map[], []) && Users(map[], []) == map[]
  {
    ZeroIffNoBits(0);
    assert FreeOf(map[]) == map[];
  }

  lemma NoUsers()
    ensures Users(map[], []) == map[]
  {
  }

  class Tlsf {
    var mem: Mem
    var x: Index
    var areas: seq<Area>
    var brk: nat
    const limit: nat                 // end of the memory there is
    ghost var h: Heap
    ghost var rank: Ranks
    ghost var lo: nat
    ghost var hi: nat

    ghost predicate Valid()
      reads this
    {
      && HeapInv(mem, x, h, rank, lo, hi) && AreasOk(h, areas)
      && brk % 16 == 0 && hi <= brk <= limit <= lo + MAX_SIZE && 0 < lo <= brk
    }

    /** tlsf_malloc's first call: 10240 bytes at the break hold the indexes and the first area;
        m is whatever the memory held. */
    constructor (pool: nat, limit: nat, m: Mem)
      requires pool > 0 && pool % 16 == 0 && pool + 10240 <= limit <= pool + MAX_SIZE
      ensures Valid() && Users(h, areas) == map[] && brk == pool + 10240 && this.limit == limit
    {
      this.limit := limit;
      mem, x, areas, brk := m, NoLists(), [], pool + 10240;
      h, rank, lo, hi := map[], map[], pool + CONTROL, pool + CONTROL;
      new;
      hide HeapInv, AreasOk, Users, NoLists;
      NoBlocks(m, lo, hi);
      FirstArea(pool + CONTROL, 10240 - CONTROL, brk);
    }

    /** init_memory_pool: the first area, with one free block */
    method FirstArea(area: nat, size: nat, end: nat)
      requires HeapInv(mem, x, h, rank, lo, hi) && h == map[] && areas == [] && AreasOk(h, areas)
      requires size >= 80 && 0 < lo == hi == area && end == area + size <= lo + MAX_SIZE && area % 16 == 0
      modifies `mem, `x, `areas, `h, `rank, `hi
      ensures HeapInv(mem, x, h, rank, lo, hi) && AreasOk(h, areas) && Users(h, areas) == map[] && hi == end
    {
      hide HeapInv, AreasOk, Growing, AreaAt, Users, UserDataKept, Ready, OnlyArea, AreaHeaders, NewArea, RoundDown,
           AreasApart;
      NoUsers();
      ghost var m0, u0 := mem, Users(h, areas);
      var n, b := ProcessArea(area, size);
      NewAreaGrowing(m0, mem, x, h, rank, lo, hi, lo, end, areas, area, size);
      h, hi := NewArea(h, area, RoundDown(size - 64)), end;
      assert [n] + areas == [n];
      GrowingReady(mem, x, h, rank, lo, hi, areas, n, b, false, m0, u0);
      areas := [n];
      ghost var c := FreeBlock(b, false);
    }

    /** EXTRACT_BLOCK */
    method Extract(b: nat, c: Class)
      requires Shaped(x) && InMatrix(c)
      modifies `mem, `x
      ensures old(Shaped(x)) && mem == ExtractMem(old(mem), b) && x == ExtractIndex(old(mem), old(x), c, b)
    {
      var n, p := NextFree(mem, b), PrevFree(mem, b);
      if n != 0 { mem := mem[n + 16 := p]; }
      if p != 0 { mem := mem[p + 24 := n]; }
      if Head(x, c) == b {
        x := PutHead(x, c, n);
        if n == 0 { x := MarkEmpty(x, c); }
      }
      mem := mem[b + 16 := 0];
      mem := mem[b + 24 := 0];
    }

    /** EXTRACT_BLOCK_HDR: the same for the first block of a list */
    method ExtractFirst(b: nat, c: Class)
      requires Shaped(x) && InMatrix(c) && Head(x, c) == b && PrevFree(mem, b) == 0
      modifies `mem, `x
      ensures old(Shaped(x)) && mem == ExtractMem(old(mem), b) && x == ExtractIndex(old(mem), old(x), c, b)
    {
      var n := NextFree(mem, b);
      x := PutHead(x, c, n);
      if n != 0 {
        mem := mem[n + 16 := 0];
      } else {
        x := MarkEmpty(x, c);
      }
      mem := mem[b + 16 := 0];
      mem := mem[b + 24 := 0];
    }

    /** INSERT_BLOCK */
    method InsertBlock(b: nat, c: Class)
      requires Shaped(x) && InMatrix(c)
      modifies `mem, `x
      ensures old(Shaped(x)) && mem == InsertMem(old(mem), old(x), c, b) && x == InsertIndex(old(x), c, b)
    {
      var first := Head(x, c);
      mem := mem[b + 16 := 0];
      mem := mem[b + 24 := first];
      if first != 0 { mem := mem[first + 16 := b]; }
      x := PutHead(x, c, b);
      x := MarkUsed(x, c);
    }

    /** Takes a free block of the given size off its list; it then counts as used. */
    method TakeBlock(ghost p: Plan, b: nat, size: nat)
      requires Mid(p, mem, x, h, rank) && b in h && h[b].free && h[b].size == size
      requires b in p.touched && {b, End(h, b)} <= p.stale
      modifies `mem, `x, `h
      ensures Mid(p, mem, x, h, rank) && h == Mark(old(h), b, false) && HeadersSame(old(mem), mem, old(h))
    {
      hide *;
      TakeStep(p, mem, x, h, rank, b);
      var c := Insert(size);
      Extract(b, c);
      h := Mark(h, b, false);
    }

    /** The same for a block that is the first of its list d. */
    method TakeFirst(ghost p: Plan, b: nat, d: Class)
      requires Mid(p, mem, x, h, rank) && b in h && h[b].free && d == ClassOf(h[b].size)
      requires b in p.touched && {b, End(h, b)} <= p.stale
      requires Shaped(x) && InMatrix(d) && Head(x, d) == b && PrevFree(mem, b) == 0
      modifies `mem, `x, `h
      ensures Mid(p, mem, x, h, rank) && h == Mark(old(h), b, false) && HeadersSame(old(mem), mem, old(h))
    {
      hide Mid, Insert, ExtractMem, ExtractIndex, HeadersSame;
      TakeStep(p, mem, x, h, rank, b);
      ExtractFirst(b, d);
      h := Mark(h, b, false);
    }

    /** Puts a used block on the list for its size. */
    method PutOnList(ghost p: Plan, b: nat, size: nat)
      requires Loose(p, mem, x, h, rank) && b in h && !h[b].free && h[b].size == size > 0
      requires b in p.touched && {b, End(h, b)} <= p.stale && (b == p.b ==> p.k == 0)
      modifies `mem, `x, `h, `rank
      ensures Loose(p, mem, x, h, rank) && h == Mark(old(h), b, true) && HeadersSame(old(mem), mem, old(h))
      ensures InsideSame(old(mem), mem, old(h), b)
    {
      hide *;
      GiveLoose(p, mem, x, h, rank, b);
      var c := Insert(size);
      rank := InsertRank(x, rank, c, b);
      InsertBlock(b, c);
      h := Mark(h, b, true);
    }

    /** The same for one between used neighbours: the heap stays in order. */
    method GiveBlock(ghost p: Plan, b: nat, size: nat)
      requires Mid(p, mem, x, h, rank) && b in h && !h[b].free && h[b].size == size > 0
      requires b in p.touched && {b, End(h, b)} <= p.stale && (b == p.b ==> p.k == 0)
      requires !LeftFree(h, b) && End(h, b) in h && !h[End(h, b)].free
      modifies `mem, `x, `h, `rank
      ensures Mid(p, mem, x, h, rank) && h == Mark(old(h), b, true) && HeadersSame(old(mem), mem, old(h))
    {
      MarkMerged(h, p.lo, p.hi, b, true);
      hide AllMerged, Loose, Mark, HeadersSame;
      PutOnList(p, b, size);
    }

    /** Writes a header word that is being brought up to date. */
    method SetHeader(ghost p: Plan, c: nat, second: bool, v: nat)
      requires Mid(p, mem, x, h, rank) && c in h && c in p.stale
      modifies `mem
      ensures Mid(p, mem, x, h, rank) && mem == old(mem)[c + (if second then 8 else 0) := v]
    {
      hide *;
      WriteHeader(p, mem, x, h, rank, c, second, v);
      mem := mem[c + (if second then 8 else 0) := v];
    }

    /** Absorbs the right neighbour r, if free, into the used block b. */
    method AbsorbRight(ghost p: Plan, b: nat, r: nat)
      requires Mid(p, mem, x, h, rank) && Joinable(h, b) && !h[b].free && r == End(h, b) && h[r].free
      requires {b, r, End(h, r)} <= p.stale && {b, r} <= p.touched && (r == p.b ==> p.k == 0)
      requires SizeOf(Rd(mem, r + 8)) == h[r].size
      modifies `mem, `x, `h
      ensures Mid(p, mem, x, h, rank) && HeadersSame(old(mem), mem, old(h))
      ensures Joined(old(h), h, b)
    {
      ghost var h0 := h;
      TakeBlock(p, r, SizeOf(Rd(mem, r + 8)));
      ghost var h1 := h;
      hide Mid, ListInv;
      JoinStep(p, mem, x, h, rank, b);
      h := Join(h, b);
      assert Joined(h1, h, b);
      assert Joined(h0, h, b);
    }

    /** free_ex: merging with a free right neighbour */
    method MergeRight(ghost p: Plan, b: nat, ghost lost: bool)
      requires Mid(p, mem, x, h, rank) && Freeing(p, mem, h, b, lost) && p.b == b && p.k == 0
      requires h[End(h, b)].free ==> {End(h, End(h, b))} <= p.stale && {End(h, b)} <= p.touched
      modifies `mem, `x, `h
      ensures Mid(p, mem, x, h, rank) && Freeing(p, mem, h, b, lost) && !h[End(h, b)].free
      ensures RightGone(old(h), h, b)
    {
      hide Mid, Freeing, SizeOf, IsFree;
      FreeingWords(p, mem, x, h, rank, b, lost);
      var r := b + HDR + SizeOf(Rd(mem, b + 8));
      if IsFree(Rd(mem, r + 8)) {
        ghost var m0, h0, x0 := mem, h, x;
        var size := SizeOf(Rd(mem, r + 8));
        AbsorbRight(p, b, r);
        RightMerged(p, m0, x0, h0, rank, mem, h, b, lost);
        SetHeader(p, b, true, Rd(mem, b + 8) + size + HDR);
      }
    }

    /** free_ex: merging with a free left neighbour, if the header says that it is free */
    method MergeLeft(ghost p: Plan, b: nat, ghost lost: bool) returns (c: nat)
      requires Mid(p, mem, x, h, rank) && Freeing(p, mem, h, b, lost) && p.b == b && p.k == 0 && !h[End(h, b)].free
      modifies `mem, `x, `h
      ensures Mid(p, mem, x, h, rank) && Freeing(p, mem, h, c, lost) && !h[End(h, c)].free && (LeftFree(h, c) ==> lost)
      ensures LeftGone(old(h), h, b, c, lost) && SizeOf(Rd(mem, b + 8)) == old(h)[b].size
    {
      hide Mid, Freeing, SizeOf, IsPrevFree, Join;
      FreeingWords(p, mem, x, h, rank, b, lost);
      c := b;
      if IsPrevFree(Rd(mem, b + 8)) {
        ghost var m0, h0, x0 := mem, h, x;
        c := Rd(mem, b);
        LeftWords(p, mem, x, h, rank, b);
        LeftJoins(p, mem, x, h, rank, b);
        TakeBlock(p, c, SizeOf(Rd(mem, c + 8)));
        JoinStep(p, mem, x, h, rank, c);
        h := Join(h, c);
        LeftMerged(p, m0, x0, h0, rank, mem, h, b, c);
        SetHeader(p, c, true, Rd(mem, c + 8) + SizeOf(Rd(mem, b + 8)) + HDR);
      }
    }

    /** free_ex: the merged block goes on its list, and its right neighbour learns about it */
    method FinishFree(ghost p: Plan, c: nat, ghost lost: bool)
      requires Mid(p, mem, x, h, rank) && Freeing(p, mem, h, c, lost) && !h[End(h, c)].free
      requires (LeftFree(h, c) ==> lost) && p.k == 0
      modifies `mem, `x, `h, `rank
      ensures Loose(p, mem, x, h, rank) && old(c in h) && h == Mark(old(h), c, true)
      ensures !lost ==> HeapInv(mem, x, h, rank, p.lo, p.hi)
      ensures lost ==> Unmerged(mem, x, h, rank, p.lo, p.hi, old(h)[c].left)
      ensures InsideSame(old(mem), mem, old(h), c) && SizeOf(Rd(mem, c + 8)) == old(h)[c].size
    {
      hide *;
      ghost var m0, h0, x0, rank0 := mem, h, x, rank;
      FreeingWords(p, mem, x, h, rank, c, lost);
      LooseOf(p, mem, x, h, rank);
      PutOnList(p, c, SizeOf(Rd(mem, c + 8)));
      FreeEnds(p, m0, x0, h0, rank0, mem, x, h, rank, c, lost);
      var n := c + HDR + SizeOf(Rd(mem, c + 8));
      FinishedInside(m0, mem, h0, c, SetPrevFree(Rd(mem, n + 8)));
      mem := mem[n + 8 := SetPrevFree(Rd(mem, n + 8))];
      mem := mem[n := c];
    }

    /** free_ex, from the pointer check on; the block then reaches to the end of the free one it is in. */
    method FreeBlock(b: nat, ghost lost: bool) returns (ghost c: nat)
      requires Ready(mem, x, h, rank, lo, hi, b, lost) && AreasOk(h, areas) && !IsStart(areas, b)
      modifies `mem, `x, `h, `rank
      ensures AreasOk(h, areas) && Users(h, areas) == old(Users(h, areas)) - {b}
      ensures UserDataKept(old(Users(h, areas)), old(mem), mem, b, 0)
      ensures old(b in h) && c in h && h[c].free && h[c].size >= old(h[b].size)
      ensures b + HDR + SizeOf(Rd(mem, b + 8)) == End(h, c)
      ensures !lost ==> HeapInv(mem, x, h, rank, lo, hi)
      ensures lost ==> exists l :: l in h && Unmerged(mem, x, h, rank, lo, hi, l)
    {
      hide HeapInv, Mid, Loose, SetFree, Freeing, AreasOk, Users, FreePlan, UserDataKept, Tiled, AllMerged, ListInv,
           HeadersBut, ClearPrevFree, HeaderOk, Unmerged, SizeOf, Rd, InsideSame;
      ghost var h0, x0, rank0 := h, x, rank;
      ghost var p := FreePlan(mem, h, lo, hi, b);
      FreePlanParts(mem, h, lo, hi, b);
      FreeStart(p, x, rank, lost);
      SetHeader(p, b, true, SetFree(Rd(mem, b + 8)));
      WriteInside(p, mem, x, h, rank, b, b + 16, 0);
      mem := mem[b + 16 := 0];
      WriteInside(p, mem, x, h, rank, b, b + 24, 0);
      mem := mem[b + 24 := 0];
      FreeingStart(p, x, rank, mem, lost);
      MergeRight(p, b, lost);
      ghost var h1 := h;
      if LeftFree(h1, b) { LeftRoom(p, mem, x, h1, rank, b); }
      var last := MergeLeft(p, b, lost);
      ghost var m2, h2 := mem, h;
      FinishFree(p, last, lost);
      FreedSize(m2, mem, h1, h2, h, b, last, lost);
      c := last;
      FreedResult(p, x0, rank0, mem, x, rank, h0, h1, h2, h, areas, c, lost);
      if lost { UnmergedIn(mem, x, h, rank, lo, hi, h2[last].left); }
    }

    /** tlsf_free */
    method Free(ptr: nat)
      requires Valid() && (ptr != 0 ==> ptr >= HDR && ptr - HDR in Users(h, areas))
      modifies `mem, `x, `h, `rank
      ensures Valid()
      ensures ptr == 0 ==> mem == old(mem) && x == old(x) && h == old(h)
      ensures ptr != 0 ==> Users(h, areas) == old(Users(h, areas)) - {ptr - HDR}
      ensures ptr != 0 ==> UserDataKept(old(Users(h, areas)), old(mem), mem, ptr - HDR, 0)
    {
      if ptr == 0 { return; }
      var b := ptr - HDR;
      UserReady(mem, x, h, rank, lo, hi, areas, b);
      hide Users, HeapInv, AreasOk, Ready, UserDataKept;
      ghost var c := FreeBlock(b, false);
    }

    /** Cuts the used block b down to s bytes; the rest becomes a free block, except that the
        right neighbour n does not say so yet. */
    method Split(ghost p: Plan, b: nat, total: nat, s: nat, n: nat)
      requires Mid(p, mem, x, h, rank) && b in h && !h[b].free && 0 < s && s % 16 == 0 && s + 32 <= h[b].size == total
      requires n == End(h, b) && n in h && !h[n].free
      requires {b, b + HDR + s, n} <= p.stale && {b, b + HDR + s} <= p.touched
      requires p.k == 0 || (b == p.b && p.k <= s)
      requires IsPrevFree(Rd(mem, b + 8)) == LeftFree(h, b)
      modifies `mem, `x, `h, `rank
      ensures Mid(p, mem, x, h, rank) && Halved(old(h), h, b, s)
      ensures n in h && HeaderOk(mem, h, b + HDR + s) && Rd(mem, b + 8) == s + (if old(LeftFree(h, b)) then 2 else 0)
      ensures Rd(mem, b) == old(Rd(mem, b)) && Rd(mem, n) == b + HDR + s && Rd(mem, n + 8) == old(Rd(mem, n + 8))
    {
      ghost var m0, h0 := mem, h;
      hide Mid, IsPrevFree, HeadersSame, HeaderOk, Rd;
      NoBlockInside(p, mem, x, h, rank, b, b + HDR + s);
      CutStep(p, mem, x, h, rank, b, s);
      h := Cut(h, b, s);
      ghost var h1 := h;
      hide Cut;
      var w := Rd(mem, b + 8);
      var tmp := total - s - HDR;
      var b2 := b + HDR + s;
      SetHeader(p, b2, true, tmp + 1);
      SetHeader(p, n, false, b2);
      GiveBlock(p, b2, tmp);
      ghost var m1 := mem;
      SplitWords(m0, h0, m1, h1, b, s, n, s + (if IsPrevFree(w) then 2 else 0));
      SetHeader(p, b, true, s + (if IsPrevFree(Rd(mem, b + 8)) then 2 else 0));
    }

    /** malloc_ex: block b is off its list; what it does not need becomes a free block */
    method Trim(ghost p: Plan, ghost x0: Index, ghost rank0: Ranks, b: nat, s: nat)
      requires HeapInv(p.m, x0, p.h, rank0, p.lo, p.hi) && b == p.b && b in p.h && p.h[b].free && s % 16 == 0
      requires 0 < s <= p.h[b].size
      requires p == CarvePlan(p.m, p.h, p.lo, p.hi, b, s)
      requires Mid(p, mem, x, h, rank) && HeadersSame(p.m, mem, p.h) && h == Mark(p.h, b, false)
      modifies `mem, `x, `h, `rank
      ensures Mid(p, mem, x, h, rank) && HeapInv(mem, x, h, rank, p.lo, p.hi)
      ensures b in h && !h[b].free && s <= h[b].size < s + 32
      ensures s + 32 <= p.h[b].size ==> Unused(h, b + HDR + s) && b + HDR + s !in p.h
    {
      CarveStart(p, x0, rank0, s);
      CarveWords(p.m, mem, p.h, h, b);
      hide HeapInv, Mid, CarvePlan, SizeOf, HeadersSame, HeaderOk, Halved, IsPrevFree, Rd, ClearFree, ClearPrevFree,
           Mark;
      var n := b + HDR + SizeOf(Rd(mem, b + 8));
      var tmp := SizeOf(Rd(mem, b + 8)) - s;
      if tmp >= 32 {
        Split(p, b, tmp + s, s, n);
        CarvedSplit(p, x0, rank0, mem, x, h, rank, s);
      } else {
        SetHeader(p, n, true, ClearPrevFree(Rd(mem, n + 8)));
        SetHeader(p, b, true, ClearFree(Rd(mem, b + 8)));
        CarvedWhole(p, x0, rank0, mem, x, h, rank, s);
      }
      Finish(p, mem, x, h, rank);
    }

    /** malloc_ex, once a block has been found: b is the first of list d and has s bytes */
    method Carve(b: nat, d: Class, s: nat)
      requires HeapInv(mem, x, h, rank, lo, hi) && AreasOk(h, areas)
      requires b in h && h[b].free && d == ClassOf(h[b].size) && 0 < s <= h[b].size && s % 16 == 0
      requires Shaped(x) && InMatrix(d) && Head(x, d) == b && PrevFree(mem, b) == 0
      modifies `mem, `x, `h, `rank
      ensures HeapInv(mem, x, h, rank, lo, hi) && AreasOk(h, areas)
      ensures b !in old(Users(h, areas)) && b in h && s <= h[b].size < s + 32
      ensures Users(h, areas) == old(Users(h, areas))[b := h[b].size]
      ensures UserDataKept(old(Users(h, areas)), old(mem), mem, b, 0)
    {
      ghost var h0, x0, rank0 := h, x, rank;
      ghost var p := CarvePlan(mem, h, lo, hi, b, s);
      CarvePlanParts(mem, h, lo, hi, b, s);
      CarveStart(p, x, rank, s);
      assert b !in Users(h, areas);
      hide HeapInv, Mid, AreasOk, Users, UserDataKept, CarvePlan, HeadersSame;
      TakeFirst(p, b, d);
      Trim(p, x0, rank0, b, s);
      CarvedResult(p, x0, rank0, mem, x, h, rank, areas, s);
    }

    /** add_new_area: old area i starts right where the new one ends */
    method JoinNext(i: nat, n: Area, b0: nat, ghost m0: Mem, ghost u0: map<nat, nat>) returns (n': Area)
      requires Growing(mem, x, h, rank, lo, hi, areas, n, b0, false, m0, u0) && i < |areas|
      requires b0 in h && End(h, b0) == n.end && areas[i].start == n.end + HDR
      modifies `mem, `areas, `h
      ensures areas == Without(old(areas), i) && n' == Area(n.start, old(areas)[i].end)
      ensures Fused(old(h), h, b0) && old(b0 in h)
      ensures Growing(mem, x, h, rank, lo, hi, areas, n', b0, old(LeftFree(h, b0)), m0, u0)
    {
      hide Growing, OthersKept, Ready, Fused, Fuse, SizeOf, IsPrevFree, Rd, ThreeUsed;
      NextReads(mem, x, h, rank, lo, hi, areas, n, b0, m0, u0, i);
      ghost var m1, h1 := mem, h;
      ghost var h2 := Fuse(h, b0);
      var ib1 := areas[i].start;
      var b1 := ib1 + HDR + SizeOf(Rd(mem, ib1 + 8));
      var lb1 := areas[i].end;
      ghost var areas0 := areas;
      areas := Without(areas, i);
      var size := SizeOf(Rd(mem, b0 + 8)) + SizeOf(Rd(mem, ib1 + 8)) + 2 * HDR;
      mem := mem[b0 + 8 := size - size % 16];
      mem := mem[b1 := b0];
      n' := Area(n.start, lb1);
      GrowNext(m1, x, h1, rank, lo, hi, areas0, n, b0, m0, u0, i, mem, h2);
      h := h2;
    }

    /** add_new_area: old area i ends right where the new one starts */
    method JoinPrev(i: nat, n: Area, b0: nat, ghost m0: Mem, ghost u0: map<nat, nat>) returns (n': Area, c: nat)
      requires Growing(mem, x, h, rank, lo, hi, areas, n, b0, false, m0, u0) && i < |areas|
      requires b0 in h && b0 == n.start + 32 && areas[i].end + HDR == n.start
      modifies `mem, `areas, `h
      ensures areas == Without(old(areas), i) && n' == Area(old(areas)[i].start, n.end) && c == old(areas)[i].end
      ensures Fused(old(h), h, c)
      ensures Growing(mem, x, h, rank, lo, hi, areas, n', c, false, m0, u0)
    {
      hide Growing, OthersKept, Ready, Fused, Fuse, SizeOf, IsPrevFree, Rd, ThreeUsed;
      PrevReads(mem, x, h, rank, lo, hi, areas, n, b0, m0, u0, i);
      ghost var m1, h1 := mem, h;
      c := areas[i].end;
      ghost var h2 := Fuse(h, c);
      ghost var areas0 := areas;
      n' := Area(areas[i].start, n.end);
      areas := Without(areas, i);
      var size := SizeOf(Rd(mem, b0 + 8)) + SizeOf(Rd(mem, n.start + 8)) + 2 * HDR;
      var w := size - size % 16 + (if IsPrevFree(Rd(mem, c + 8)) then 2 else 0);
      mem := mem[c + 8 := w];
      var next := c + HDR + (size - size % 16);
      mem := mem[next := c];
      GrowPrev(m1, x, h1, rank, lo, hi, areas0, n, m0, u0, i, w, mem, h2);
      h := h2;
    }

    /** add_new_area: the scan for areas the new one touches */
    method MergeAreas(n0: Area, b: nat, ghost m0: Mem, ghost u0: map<nat, nat>) returns (n: Area, b0: nat,
            ghost lost: bool)
      requires Growing(mem, x, h, rank, lo, hi, areas, n0, b, false, m0, u0)
      requires b in h && b == n0.start + 32 && End(h, b) == n0.end && !LeftFree(h, b)
      modifies `mem, `areas, `h
      ensures Growing(mem, x, h, rank, lo, hi, areas, n, b0, lost, m0, u0) && NoneAdjacent([n] + areas)
      ensures lost <==> Clobbers(old(h), old(areas), n0)
      ensures b0 in h && h[b0].size >= old(h)[b].size
      ensures b0 == if Preceded(old(areas), n0.start) then n0.start - HDR else n0.start + 32
    {
      hide Growing, Scanned, Fused, Lost, Tiled, AreaOk, AreasApart, Clobbers, Without;
      ghost var h0, A0 := h, areas;
      ghost var s := Place(0, 0, -1, -1);
      n, b0 := n0, b;
      var i := 0;
      ScanStart(mem, x, h, rank, lo, hi, areas, n0, b0, m0, u0, s);
      while i < |areas|
        invariant s.i == i <= |areas|
        invariant Scanned(h0, A0, n0, h, areas, n, b0, s)
        invariant Growing(mem, x, h, rank, lo, hi, areas, n, b0, Lost(h0, A0, s), m0, u0)
        invariant b0 in h && h[b0].size >= h0[b].size
        decreases |areas| - i
      {
        GrowingParts(mem, x, h, rank, lo, hi, areas, n, b0, Lost(h0, A0, s), m0, u0);
        ghost var h1, areas1, n1, b1 := h, areas, n, b0;
        if areas[i].start == n.end + HDR {
          NotYetNext(h0, A0, n0, h, areas, n, b0, s);
          n := JoinNext(i, n, b0, m0, u0);
          ghost var s' := s.(seen := s.seen + 1, next := s.seen);
          GrowingParts(mem, x, h, rank, lo, hi, areas, n, b0, Lost(h0, A0, s'), m0, u0);
          ScanNext(h0, A0, n0, h1, h, lo, hi, areas1, n1, b1, s);
          FusedSize(h1, h, b0, b0);
          WithoutRest(areas1, areas1, i, i);
          s := s';
        } else if areas[i].end + HDR == n.start {
          NotYetPrev(h0, A0, n0, h, areas, n, b0, s);
          n, b0 := JoinPrev(i, n, b0, m0, u0);
          ghost var s' := s.(seen := s.seen + 1, prev := s.seen);
          GrowingParts(mem, x, h, rank, lo, hi, areas, n, b0, Lost(h0, A0, s'), m0, u0);
          ScanPrev(h0, A0, n0, h1, h, lo, hi, areas1, n1, b1, s);
          PrevBlock(h1, n1, areas1[i]);
          FusedSize(h1, h, b0, b1);
          WithoutRest(areas1, areas1, i, i);
          s := s';
        } else {
          ScanSkip(h0, A0, n0, h, areas, n, b0, s);
          assert Lost(h0, A0, s.(seen := s.seen + 1, i := s.i + 1)) == Lost(h0, A0, s) by { SameLost(h0, A0, s); }
          s := s.(seen := s.seen + 1, i := s.i + 1);
          i := i + 1;
        }
      }
      lost := Lost(h0, A0, s);
      ScanEnd(h0, A0, n0, h, areas, n, b0, s);
    }

    /** process_area: the headers of a new area */
    method ProcessArea(area: nat, size: nat) returns (n: Area, b: nat)
      requires size >= 80
      modifies `mem
      ensures AreaHeaders(mem, area, RoundDown(size - 64)) && OnlyArea(old(mem), mem, area, size)
      ensures n == AreaAt(area, size) && b == area + 32
    {
      hide RoundDown, AreaHeaders, OnlyArea;
      RoundDownBy(size - 64);
      AreaWritten(mem, area, size, RoundDown(size - 64));
      var ib := area;
      mem := mem[ib + 8 := 16];
      b := ib + HDR + 16;
      var s := RoundDown(size - 3 * HDR - 16);
      mem := mem[b + 8 := s];
      mem := mem[b + 16 := 0];
      mem := mem[b + 24 := 0];
      var lb := b + HDR + s;
      mem := mem[lb := b];
      mem := mem[lb + 8 := 2];
      n := Area(ib, lb);
    }

    /** add_new_area: memory outside all areas becomes a free block, joined with the areas that touch it. The result
        is how far that block reaches from the new area on, or from the first buffer in it. If the area lies between
        two, the lower visited first and ending in a free block, that block is not merged; users do not notice. */
    method AddNewArea(area: nat, size: nat, ghost lo': nat, ghost hi': nat) returns (r: nat, ghost c: nat)
      requires HeapInv(mem, x, h, rank, lo, hi) && AreasOk(h, areas)
      requires size >= 80 && Outside(h, area, size) && AreaFits(lo, hi, lo', hi', area, size)
      modifies `mem, `x, `areas, `h, `rank, `lo, `hi
      ensures AreasOk(h, areas) && lo == lo' && hi == hi'
      ensures Users(h, areas) == old(Users(h, areas)) && UserDataKept(old(Users(h, areas)), old(mem), mem, 0, 0)
      ensures c in h && h[c].free && h[c].size >= RoundDown(size - 64)
      ensures r == End(h, c) - if old(Preceded(areas, area)) then area else area + 48
      ensures HeapInv(mem, x, h, rank, lo, hi) <==> !Clobbers(old(h), old(areas), AreaAt(area, size))
      ensures Clobbers(old(h), old(areas), AreaAt(area, size)) ==> exists l :: l in h && Unmerged(mem, x, h, rank, lo, hi, l)
    {
      hide HeapInv, AreasOk, Outside, Clobbers, Growing, AreaAt, Users, UserDataKept, Ready, OnlyArea, AreaHeaders,
           NewArea, RoundDown, NoneAdjacent, AreasApart, Unmerged;
      ghost var m0, u0 := mem, Users(h, areas);
      mem := Zeroed(mem, area, size);
      ghost var m1 := mem;
      var n0, b := ProcessArea(area, size);
      ZeroedOnly(m0, m1, mem, area, size);
      NewAreaGrowing(m0, mem, x, h, rank, lo, hi, lo', hi', areas, area, size);
      h, lo, hi := NewArea(h, area, RoundDown(size - 64)), lo', hi';
      assert n0.start + 32 == b by { AreaAtStart(area, size); }
      var n, b0, lost := MergeAreas(n0, b, m0, u0);
      GrowingReady(mem, x, h, rank, lo, hi, areas, n, b0, lost, m0, u0);
      areas := [n] + areas;
      ghost var m2, u2 := mem, Users(h, areas);
      c := FreeBlock(b0, lost);
      GrowingUser(m0, u0, u2, b0, m2, mem);
      if lost {
        ghost var l :| l in h && Unmerged(mem, x, h, rank, lo, hi, l);
        UnmergedIsWrong(mem, x, h, rank, lo, hi, l, x, h, rank, lo, hi);
      }
      r := SizeOf(Rd(mem, b0 + 8));
    }

    /** get_new_area: the memory after what has been handed out so far, if there is enough */
    method GetNewArea(size: nat) returns (ok: bool, area: nat)
      requires brk % 16 == 0
      modifies `brk
      ensures ok <==> old(brk) + RoundUp(size) <= limit
      ensures brk == (if ok then old(brk) + RoundUp(size) else old(brk)) && brk % 16 == 0
      ensures area == old(brk)
    {
      RoundUpBy(size);
      area := brk;
      ok := brk + RoundUp(size) <= limit;
      if ok { brk := brk + RoundUp(size); }
    }

    /** The first suitable block, if there is one (MAPPING_SEARCH, FIND_SUITABLE_BLOCK). */
    method FindBlock(s: nat) returns (b: nat, d: Class)
      requires HeapInv(mem, x, h, rank, lo, hi) && s < MAX_SIZE && s % 16 == 0 && Rounded(s) < MAX_SIZE
      ensures b != 0 ==> b in h && h[b].free && h[b].size >= Rounded(s)
      ensures b != 0 ==> Shaped(x) && InMatrix(d) && d == ClassOf(h[b].size) && Head(x, d) == b && PrevFree(mem, b) == 0
      ensures b == 0 ==> forall c :: c in h && h[c].free ==> h[c].size < Rounded(s)
    {
      hide HeapInv, Shaped, InMatrix, ClassOf, Head, Find, Search, Rounded;
      FindFits(mem, x, h, rank, lo, hi, s);
      var c := Search(s);
      var found := Find(x, c);
      b, d := found.0, found.1;
    }

    /** malloc_ex: fails, with a null pointer, exactly if no free block is large enough and no
        memory is left for a new area; takes such an area only if no free block is large enough. */
    method Malloc(size: nat) returns (ptr: nat)
      requires Valid() && InRange(size)
      modifies this
      ensures Valid() && lo == old(lo)
      ensures ptr == 0 <==> NoMemory(old(h), size, old(brk), limit)
      ensures brk == if ptr == 0 || Fits(old(h), size) then old(brk) else old(brk) + Taken(size)
      ensures ptr == 0 ==> mem == old(mem) && h == old(h) && areas == old(areas) && x == old(x)
      ensures ptr != 0 ==> ptr >= HDR && var b := ptr - HDR;
        && b !in old(Users(h, areas)) && b in h && h[b].size >= size && h[b].size >= 16 && h[b].size % 16 == 0
        && h[b].size < Rounded(Request(size)) + 32 <= size + size / 32 + 64
        && Users(h, areas) == old(Users(h, areas))[b := h[b].size]
      ensures UserDataKept(old(Users(h, areas)), old(mem), mem, 0, 0)
    {
      hide HeapInv, AreasOk, Users, UserDataKept, Rounded, ClassOf, InMatrix, Outside, Clobbers, AreaAt, RoundUp;
      var s := Rounded(Request(size));
      RequestRounds(size);
      LittleWaste(size);
      var b, d := FindBlock(Request(size));
      ghost var m0, u0 := mem, Users(h, areas);
      UsersNotZero(mem, x, h, rank, lo, hi, areas);
      if b == 0 {
        var areaSize := if s + 8 * HDR > 10240 then s + 8 * HDR else 10240;
        BelowBreak(mem, x, h, rank, lo, hi, areas, brk, areaSize);
        var ok, area := GetNewArea(areaSize);
        if !ok {
          Nothing(u0, mem, 0, 0);
          return 0;
        }
        RoundUpBy(areaSize);
        var got;
        ghost var c;
        got, c := AddNewArea(area, areaSize, lo, brk);
        RoundDownBy(areaSize - 64);
        b, d := FindBlock(s);
      }
      ghost var m1 := mem;
      Carve(b, d, s);
      UserSizes(mem, x, h, rank, lo, hi, b);
      UserChain(u0, m0, m1, mem, b);
      ptr := b + HDR;
    }

    /** realloc_ex: a user's block b shrinks to s bytes, in place */
    method Shrink(b: nat, s: nat)
      requires HeapInv(mem, x, h, rank, lo, hi) && AreasOk(h, areas)
      requires b in Users(h, areas) && b in h && 0 < s <= h[b].size && s % 16 == 0
      modifies `mem, `x, `h, `rank
      ensures HeapInv(mem, x, h, rank, lo, hi) && AreasOk(h, areas)
      ensures b in h && s <= h[b].size < s + 32 && Users(h, areas) == old(Users(h, areas))[b := h[b].size]
      ensures UserDataKept(old(Users(h, areas)), old(mem), mem, b, s)
    {
      hide HeapInv, AreasOk, Users, UserDataKept, Mid, SizeOf, IsFree, IsPrevFree, SetPrevFree, ClearPrevFree,
           ResizePlan, Widened, Halved, HeadersSame, HeaderOk, Joined;
      ghost var h0, x0, rank0 := h, x, rank;
      ghost var p := ResizePlan(mem, h, lo, hi, b, s);
      ResizePlanParts(mem, h, lo, hi, b, s);
      ResizeStart(p, x, rank, areas, s);
      ResizeReads(mem, x, h, rank, lo, hi, areas, b, b + HDR + h[b].size);
      ghost var n := b + HDR + Total(h, b);
      ResizeNext(mem, x, h, rank, lo, hi, areas, b, n);
      var t := SizeOf(Rd(mem, b + 8));
      var r := b + HDR + t;
      var total, next := t, r;
      if IsFree(Rd(mem, r + 8)) {
        total := t + SizeOf(Rd(mem, r + 8)) + HDR;
        AbsorbRight(p, b, r);
        WidenedReads(p.m, mem, x0, h0, rank0, p.lo, p.hi, h, b, n);
        next := r + HDR + SizeOf(Rd(mem, r + 8));
      } else {
        WidenedHere(mem, x, h, rank, lo, hi, b, n);
      }
      if total - s >= 32 {
        ghost var h1 := h;
        Split(p, b, total, s, next);
        ghost var m1 := mem;
        SetHeader(p, next, true, SetPrevFree(Rd(mem, next + 8)));
        ResizedSplit(p, x0, rank0, m1, h1, h, n, s);
        Finish(p, mem, x, h, rank);
        ResizeResult(p, x0, rank0, mem, x, h, rank, areas, s);
      } else {
        Unresized(h, areas, b, mem, s);
      }
    }

    /** realloc_ex: after b has taken its free right neighbour, what it does not need is split off */
    method FinishGrow(ghost p: Plan, ghost x0: Index, ghost rank0: Ranks, b: nat, s: nat, n: nat)
      requires HeapInv(p.m, x0, p.h, rank0, p.lo, p.hi) && b == p.b && b in p.h
      requires p == ResizePlan(p.m, p.h, p.lo, p.hi, b, s)
      requires p.h[b].size > 0 && 0 < s <= Total(p.h, b) && s % 16 == 0 && p.k <= s && {n} <= p.stale
      requires Mid(p, mem, x, h, rank) && Widened(p.h, h, b, n) && Total(p.h, b) % 16 == 0
      requires Rd(mem, b + 8) == Total(p.h, b) + (if LeftFree(h, b) then 2 else 0) && Rd(mem, b) == Rd(p.m, b)
      requires n in p.h && Rd(mem, n + 8) == p.h[n].size && SetPrevFree(p.h[n].size) == p.h[n].size + 2
      modifies `mem, `x, `h, `rank
      ensures Mid(p, mem, x, h, rank) && HeapInv(mem, x, h, rank, p.lo, p.hi)
      ensures b in h && s <= h[b].size < s + 32 && !h[b].free
      ensures forall t :: t in p.touched && t != b ==> Unused(p.h, t) && Unused(h, t)
    {
      hide HeapInv, Mid, SizeOf, IsPrevFree, SetPrevFree, ResizePlan, Halved, HeaderOk, ListInv, Unused;
      ResizePlanParts(p.m, p.h, p.lo, p.hi, b, s);
      WordParts(Total(p.h, b), false, LeftFree(h, b));
      var tmp := SizeOf(Rd(mem, b + 8)) - s;
      ghost var h1 := h;
      if tmp >= 32 {
        Split(p, b, tmp + s, s, n);
        ghost var m1 := mem;
        SetHeader(p, n, true, SetPrevFree(Rd(mem, n + 8)));
        ResizedSplit(p, x0, rank0, m1, h1, h, n, s);
      } else {
        ResizedWhole(p, x0, rank0, mem, h, n, s);
      }
      Finish(p, mem, x, h, rank);
    }

    /** realloc_ex: a user's block b takes what it needs from its free right neighbour */
    method Grow(b: nat, s: nat)
      requires HeapInv(mem, x, h, rank, lo, hi) && AreasOk(h, areas)
      requires b in Users(h, areas) && RightFree(h, b) && h[b].size < s <= Total(h, b) && s % 16 == 0
      modifies `mem, `x, `h, `rank
      ensures HeapInv(mem, x, h, rank, lo, hi) && AreasOk(h, areas) && old(b in h)
      ensures b in h && s <= h[b].size < s + 32 && Users(h, areas) == old(Users(h, areas))[b := h[b].size]
      ensures UserDataKept(old(Users(h, areas)), old(mem), mem, b, old(h[b].size))
    {
      hide HeapInv, AreasOk, Users, UserDataKept, Mid, SizeOf, IsFree, IsPrevFree, SetPrevFree, ClearPrevFree,
           ResizePlan, Widened, Halved, HeadersSame, HeaderOk, Joined, Rd;
      ghost var h0, x0, rank0 := h, x, rank;
      ghost var p := ResizePlan(mem, h, lo, hi, b, s);
      ResizePlanParts(mem, h, lo, hi, b, s);
      ResizeStart(p, x, rank, areas, s);
      ghost var n := b + HDR + Total(h, b);
      ResizeReads(mem, x, h, rank, lo, hi, areas, b, End(h, b));
      ResizeNext(mem, x, h, rank, lo, hi, areas, b, n);
      GrownWord(h[b].size, h[End(h, b)].size, LeftFree(h, b));
      var w := Rd(mem, b + 8);
      var r := b + HDR + SizeOf(w);
      AbsorbRight(p, b, r);
      WidenedReads(p.m, mem, x0, h0, rank0, p.lo, p.hi, h, b, n);
      ghost var m1 := mem;
      SetHeader(p, b, true, w + SizeOf(Rd(mem, r + 8)) + HDR);
      GrowWord(m1, mem, b, n, w + SizeOf(Rd(m1, r + 8)) + HDR);
      var next := b + HDR + SizeOf(Rd(mem, b + 8));
      ghost var m2 := mem;
      SetHeader(p, next, false, b);
      SetHeader(p, next, true, ClearPrevFree(Rd(mem, next + 8)));
      GrowLinks(m2, mem, b, n, p.h[n].size);
      FinishGrow(p, x0, rank0, b, s, next);
      ResizeResult(p, x0, rank0, mem, x, h, rank, areas, s);
    }

    /** memcpy of n bytes from a user's block b to another, c */
    method CopyWords(c: nat, b: nat, n: nat)
      requires HeapInv(mem, x, h, rank, lo, hi) && AreasOk(h, areas)
      requires b in Users(h, areas) && c in Users(h, areas) && b != c && n % 8 == 0
      requires n <= Users(h, areas)[b] && n <= Users(h, areas)[c]
      modifies `mem
      ensures HeapInv(mem, x, h, rank, lo, hi)
      ensures UserDataKept(Users(h, areas), old(mem), mem, c, 0)
      ensures SameWords(old(mem), b + HDR, mem, c + HDR, n)
    {
      hide HeapInv, AreasOk, Users, UserDataKept, Mid, Rd, SameWords;
      ghost var p := CopyPlan(mem, h, lo, hi, c);
      CopyStart(mem, x, h, rank, lo, hi, areas, b, c);
      NoWords(mem, b + HDR, c + HDR);
      var i := 0;
      while i < n
        invariant i <= n && i % 8 == 0
        invariant Mid(p, mem, x, h, rank)
        invariant SameWords(p.m, b + HDR, mem, c + HDR, i)
      {
        CopyReads(p, mem, x, h, rank, areas, b, i);
        WriteInside(p, mem, x, h, rank, c, c + HDR + i, Rd(mem, b + HDR + i));
        ghost var m1 := mem;
        mem := mem[c + HDR + i := Rd(mem, b + HDR + i)];
        WroteWord(p.m, b + HDR, m1, mem, c + HDR, i);
        i := i + 8;
      }
      CopyDone(p, mem, x, h, rank, areas);
    }

    /** realloc_ex: a user's block b moves to a new one of at least s bytes, if there is one */
    method Move(b: nat, s: nat) returns (c: nat)
      requires Valid() && b in Users(h, areas) && b in h && h[b].size <= s && InRange(s) && s == Request(s)
      modifies this
      ensures Valid() && lo == old(lo) && old(b in h)
      ensures c == 0 <==> NoMemory(old(h), s, old(brk), limit)
      ensures brk == if c == 0 || Fits(old(h), s) then old(brk) else old(brk) + Taken(s)
      ensures c == 0 ==> mem == old(mem) && h == old(h) && areas == old(areas) && x == old(x)
      ensures c != 0 ==> Reallocated(old(Users(h, areas)), Users(h, areas), b, c, s) && Tight(Users(h, areas), c, s)
      ensures UserDataKept(old(Users(h, areas)), old(mem), mem, b, 0)
      ensures c != 0 ==> SameWords(old(mem), b + HDR, mem, c + HDR, old(h[b].size))
    {
      hide HeapInv, AreasOk, Users, UserDataKept, Rd, SizeOf, SameWords, Reallocated, Request, NoMemory, Fits, Taken,
           Rounded;
      ghost var u0, m0 := Users(h, areas), mem;
      UsersNotZero(mem, x, h, rank, lo, hi, areas);
      UserParts(h, areas, b);
      var q := Malloc(s);
      if q == 0 {
        SomeUsers(u0, m0, b);
        return 0;
      }
      c := q - HDR;
      HeaderAt(mem, x, h, rank, lo, hi, c);
      ghost var u1, m1 := Users(h, areas), mem;
      MallocKeeps(u0, u1, m0, m1, b, c);
      UserWord(mem, x, h, rank, lo, hi, areas, b);
      var t := SizeOf(Rd(mem, b + 8));
      var cpsize := if t > s then s else t;
      CopyWords(c, b, cpsize);
      ghost var m2 := mem;
      Free(b + HDR);
      MoveChain(u0, u1, m0, m1, m2, mem, b, c);
      Moved(u0, u1, b, c, s);
      WordsChain(m0, m1, m2, mem, b + HDR, c + HDR, u0[b], t, u1[c]);
    }

    /** realloc_ex, for a pointer that is not null and a size that is not zero: fails exactly if the
        block can neither stay where it is nor move; then it is as it was. */
    method Resize(b: nat, size: nat) returns (c: nat)
      requires Valid() && b in Users(h, areas) && InRange(size)
      modifies this
      ensures Valid() && lo == old(lo) && old(b in h)
      ensures c == 0 <==> !InPlace(old(h), b, Request(size)) && NoMemory(old(h), size, old(brk), limit)
      ensures brk == if c == 0 || InPlace(old(h), b, Request(size)) || Fits(old(h), size) then old(brk) else old(brk) + Taken(size)
      ensures InPlace(old(h), b, Request(size)) ==> c == b
      ensures c == 0 ==> mem == old(mem) && h == old(h) && areas == old(areas) && x == old(x)
      ensures c != 0 ==> Reallocated(old(Users(h, areas)), Users(h, areas), b, c, size) && Tight(Users(h, areas), c, size)
      ensures UserDataKept(old(Users(h, areas)), old(mem), mem, b, 0)
      ensures c != 0 ==> SameWords(old(mem), b + HDR, mem, c + HDR, Min(old(Users(h, areas))[b], size))
    {
      hide HeapInv, AreasOk, Users, UserDataKept, Rd, SizeOf, IsFree, SameWords, Reallocated, Rounded, NoMemory,
           Fits, Taken;
      ghost var u0, m0 := Users(h, areas), mem;
      UserParts(h, areas, b);
      ResizeReads(mem, x, h, rank, lo, hi, areas, b, b + HDR + h[b].size);
      RequestRounds(size);
      RoundedRequest(size);
      SameMemory(h, size, brk, limit);
      HeaderAt(mem, x, h, rank, lo, hi, b);
      hide Request;
      var s := Request(size);
      var t := SizeOf(Rd(mem, b + 8));
      var r := b + HDR + t;
      c := b;
      if s <= t {
        Shrink(b, s);
        Replaced(u0, b, h[b].size);
        StaysPut(u0, m0, mem, b, s, Min(t, size));
        Enough(u0, Users(h, areas), b, c, h[b].size, size);
      } else if IsFree(Rd(mem, r + 8)) && s <= t + SizeOf(Rd(mem, r + 8)) {
        Grow(b, s);
        Replaced(u0, b, h[b].size);
        StaysPut(u0, m0, mem, b, t, Min(t, size));
        Enough(u0, Users(h, areas), b, c, h[b].size, size);
      } else {
        c := Move(b, s);
        if c != 0 {
          FewerWords(m0, mem, b + HDR, c + HDR, t, Min(t, size));
          Enough(u0, Users(h, areas), b, c, s, size);
        }
      }
    }

    /** realloc_ex */
    method Realloc(ptr: nat, size: nat) returns (q: nat)
      requires Valid() && (ptr != 0 ==> ptr >= HDR && ptr - HDR in Users(h, areas))
      requires size != 0 ==> InRange(size)
      modifies this
      ensures Valid() && lo == old(lo) && (ptr != 0 ==> old(ptr - HDR in h))
      ensures q == 0 <==> size == 0 || ((ptr != 0 ==> !InPlace(old(h), ptr - HDR, Request(size))) && NoMemory(old(h), size, old(brk), limit))
      ensures brk == if q == 0 || (ptr != 0 && InPlace(old(h), ptr - HDR, Request(size))) || Fits(old(h), size) then old(brk)
                     else old(brk) + Taken(size)
      ensures size == 0 ==> Users(h, areas) == old(Users(h, areas)) - (if ptr == 0 then {} else {ptr - HDR})
      ensures size != 0 && q == 0 ==> mem == old(mem) && h == old(h) && areas == old(areas) && x == old(x)
      ensures q != 0 ==> q >= HDR && Reallocated(old(Users(h, areas)), Users(h, areas), if ptr == 0 then 0 else ptr - HDR, q - HDR, size)
      ensures size != 0 && q != 0 ==> Users(h, areas)[q - HDR] < size + size / 32 + 64
      ensures UserDataKept(old(Users(h, areas)), old(mem), mem, if ptr == 0 then 0 else ptr - HDR, 0)
      ensures ptr != 0 && q != 0 ==> SameWords(old(mem), ptr, mem, q, Min(old(Users(h, areas))[ptr - HDR], size))
    {
      hide HeapInv, AreasOk, Users, UserDataKept, Rd, SameWords, Reallocated, NoMemory, Taken, InPlace, Request,
           Rounded;
      ghost var u0, m0 := Users(h, areas), mem;
      UsersNotZero(mem, x, h, rank, lo, hi, areas);
      if ptr != 0 { UserParts(h, areas, ptr - HDR); }
      if size != 0 { LittleWaste(size); }
      if ptr == 0 {
        if size != 0 {
          q := Malloc(size);
          if q != 0 { Fresh(u0, Users(h, areas), q - HDR, size); }
        } else {
          q := 0;
          Nothing(u0, mem, 0, 0);
        }
      } else if size == 0 {
        Free(ptr);
        q := 0;
      } else {
        var c := Resize(ptr - HDR, size);
        q := if c == 0 then 0 else c + HDR;
      }
    }

    /** A user stores a word in block b, off bytes into it. */
    method Store(b: nat, off: nat, v: nat)
      requires Valid() && b in Users(h, areas) && off + 8 <= Users(h, areas)[b]
      modifies `mem
      ensures Valid() && mem == old(mem)[b + HDR + off := v]
      ensures UserDataKept(Users(h, areas), old(mem), mem, b, 0)
    {
      hide HeapInv, AreasOk, Users, UserDataKept, Mid;
      ghost var p := CopyPlan(mem, h, lo, hi, b);
      CopyStart(mem, x, h, rank, lo, hi, areas, b, b);
      WriteInside(p, mem, x, h, rank, b, b + HDR + off, v);
      mem := mem[b + HDR + off := v];
      CopyDone(p, mem, x, h, rank, areas);
    }
  }
}
