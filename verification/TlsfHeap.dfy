/** The allocator's heap: blocks that tile the memory, described by headers in that memory. */
module TlsfHeap {
  import opened Radix
  import opened TlsfMap
  import opened TlsfLists

  /** Bytes of a block header, and the smallest payload. */
  const HDR: nat := 16

  /** A block: payload size (0 for the block that ends an area), whether it is free, and the
      header of its left neighbour (0 if it starts an area). */
  datatype Blk = Blk(size: nat, free: bool, left: nat)

  /** Blocks by the address of their header. */
  type Heap = map<nat, Blk>

  /** Header of the right neighbour. */
  function End(h: Heap, b: nat): nat
    requires b in h
  {
    b + HDR + h[b].size
  }

  ghost predicate BlkOk(h: Heap, lo: nat, hi: nat, b: nat) {
    b in h ==>
      && 0 < lo <= b && b % 16 == 0 && h[b].size % 16 == 0 && End(h, b) <= hi
      && (h[b].size > 0 ==> End(h, b) in h && h[End(h, b)].left == b)
      && (h[b].size == 0 ==> !h[b].free)
      && (h[b].left != 0 ==> h[b].left in h && h[h[b].left].size > 0 && End(h, h[b].left) == b)
  }

  /** Blocks do not overlap. */
  ghost predicate Disjoint(h: Heap) {
    forall b, c :: b in h && c in h && b < c ==> End(h, b) <= c
  }

  /** Blocks tile their areas: each ends where its right neighbour starts. */
  ghost predicate Tiled(h: Heap, lo: nat, hi: nat) {
    && hi <= lo + MAX_SIZE
    && Disjoint(h)
    && forall b: nat :: BlkOk(h, lo, hi, b)
  }

  ghost predicate Merged(h: Heap, b: nat) {
    b in h && h[b].free ==> End(h, b) in h && !h[End(h, b)].free
  }

  /** No two neighbours are both free. */
  ghost predicate AllMerged(h: Heap) {
    forall b: nat :: Merged(h, b)
  }

  function LeftFree(h: Heap, b: nat): bool
    requires b in h
  {
    h[b].left in h && h[b].left != 0 && h[h[b].left].free
  }

  /** The size word: bit 0 says that the block is free, bit 1 that its left neighbour is. */
  function SizeWord(h: Heap, b: nat): nat
    requires b in h
  {
    h[b].size + (if h[b].free then 1 else 0) + (if LeftFree(h, b) then 2 else 0)
  }

  ghost predicate HeaderOk(m: Mem, h: Heap, b: nat) {
    b in h ==>
      && Rd(m, b + 8) == SizeWord(h, b)
      && (LeftFree(h, b) ==> Rd(m, b) == h[b].left)
  }

  ghost predicate Headers(m: Mem, h: Heap) {
    forall b: nat :: HeaderOk(m, h, b)
  }

  ghost function ClassOf(s: nat): Class {
    if s < MAX_SIZE then Insert(s) else Class(0, 0)
  }

  /** The free blocks, each with the list for its size. */
  ghost function FreeOf(h: Heap): Members {
    map b | b in h && h[b].free :: ClassOf(h[b].size)
  }

  /** The invariant of the allocator. */
  ghost predicate HeapInv(m: Mem, x: Index, h: Heap, rank: Ranks, lo: nat, hi: nat) {
    && Tiled(h, lo, hi)
    && AllMerged(h)
    && Headers(m, h)
    && ListInv(m, x, FreeOf(h), rank)
  }

  // ---- the size word ----

  function SizeOf(w: nat): nat {
    w - w % 8
  }

  function IsFree(w: nat): bool {
    w % 2 == 1
  }

  function IsPrevFree(w: nat): bool {
    (w / 2) % 2 == 1
  }

  function SetFree(w: nat): nat {
    if IsFree(w) then w else w + 1
  }

  function ClearFree(w: nat): nat {
    if IsFree(w) then w - 1 else w
  }

  function SetPrevFree(w: nat): nat {
    if IsPrevFree(w) then w else w + 2
  }

  function ClearPrevFree(w: nat): nat {
    if IsPrevFree(w) then w - 2 else w
  }

  lemma WordBits(s: nat, x: nat)
    requires s % 16 == 0 && x < 4
    ensures (s + x) % 2 == x % 2 && ((s + x) / 2) % 2 == x / 2 && (s + x) % 4 == x && (s + x) % 8 == x
  {
    var q := s / 16;
    assert s == 16 * q;
    QuotientUnique(s + x, 2, 8 * q + x / 2, x % 2);
    QuotientUnique(8 * q + x / 2, 2, 4 * q, x / 2);
    QuotientUnique(s + x, 4, 4 * q, x);
    QuotientUnique(s + x, 8, 2 * q, x);
  }

  lemma WordParts(s: nat, f: bool, p: bool)
    requires s % 16 == 0
    ensures var w := s + (if f then 1 else 0) + (if p then 2 else 0);
      && SizeOf(w) == s && IsFree(w) == f && IsPrevFree(w) == p
      && SetFree(w) == s + 1 + (if p then 2 else 0) && ClearFree(w) == s + (if p then 2 else 0)
      && SetPrevFree(w) == s + (if f then 1 else 0) + 2 && ClearPrevFree(w) == s + (if f then 1 else 0)
      && w % 4 == (if f then 1 else 0) + (if p then 2 else 0)
  {
    WordBits(s, (if f then 1 else 0) + (if p then 2 else 0));
  }

  lemma HeaderParts(m: Mem, h: Heap, lo: nat, hi: nat, b: nat)
    requires Tiled(h, lo, hi) && Headers(m, h) && b in h
    ensures var w := Rd(m, b + 8);
      && SizeOf(w) == h[b].size && IsFree(w) == h[b].free && IsPrevFree(w) == LeftFree(h, b)
      && (LeftFree(h, b) ==> Rd(m, b) == h[b].left)
    ensures b % 16 == 0 && b > 0 && h[b].size % 16 == 0 && h[b].size < MAX_SIZE
  {
    assert BlkOk(h, lo, hi, b);
    assert HeaderOk(m, h, b);
    WordParts(h[b].size, h[b].free, LeftFree(h, b));
  }

  // ---- changing the heap ----

  /** Block b absorbs its right neighbour. */
  ghost function Join(h: Heap, b: nat): Heap
    requires b in h && End(h, b) in h
  {
    var r := End(h, b);
    var big := (h - {r})[b := h[b].(size := h[b].size + HDR + h[r].size)];
    if End(h, r) in h then big[End(h, r) := h[End(h, r)].(left := b)] else big
  }

  /** Block b keeps s bytes; the rest becomes a new block, not free. */
  ghost function Cut(h: Heap, b: nat, s: nat): Heap
    requires b in h && s + HDR <= h[b].size
  {
    var b2 := b + HDR + s;
    var two := h[b := h[b].(size := s)][b2 := Blk(h[b].size - s - HDR, false, b)];
    if End(h, b) in h then two[End(h, b) := h[End(h, b)].(left := b2)] else two
  }

  ghost function Mark(h: Heap, b: nat, free: bool): Heap
    requires b in h
  {
    h[b := h[b].(free := free)]
  }

  lemma MarkTiled(h: Heap, lo: nat, hi: nat, b: nat, free: bool)
    requires Tiled(h, lo, hi) && b in h && h[b].size > 0
    ensures Tiled(Mark(h, b, free), lo, hi)
  {
    var h' := Mark(h, b, free);
    forall c: nat ensures BlkOk(h', lo, hi, c) {
      MarkBlk(h, lo, hi, b, free, c);
    }
    hide BlkOk;
    assert Disjoint(h');
  }

  lemma MarkBlk(h: Heap, lo: nat, hi: nat, b: nat, free: bool, c: nat)
    requires BlkOk(h, lo, hi, c) && b in h && h[b].size > 0
    ensures BlkOk(Mark(h, b, free), lo, hi, c)
  {
  }

  /** Block b can absorb its right neighbour: one in the same area, or, where b ends an area,
      the first block of an area that starts right there. */
  ghost predicate Joinable(h: Heap, b: nat) {
    && b in h && End(h, b) in h && h[End(h, b)].size > 0
    && (h[b].size > 0 || h[End(h, b)].left == 0)
  }

  lemma JoinTiled(h: Heap, lo: nat, hi: nat, b: nat)
    requires Tiled(h, lo, hi) && Joinable(h, b)
    ensures Tiled(Join(h, b), lo, hi) && End(Join(h, b), b) == End(h, End(h, b))
  {
    JoinSlots(h, lo, hi, b);
    var h' := Join(h, b);
    hide Join;
    forall c: nat ensures BlkOk(h', lo, hi, c) {
      JoinBlk(h, h', lo, hi, b, c);
    }
  }

  /** The joined heap, slot by slot. */
  ghost predicate Joined(h: Heap, h': Heap, b: nat)
    requires b in h && End(h, b) in h
  {
    var r := End(h, b);
    && (forall c :: c in h' <==> c in h && c != r)
    && b in h' && h'[b] == h[b].(size := h[b].size + HDR + h[r].size)
    && End(h, r) in h' && End(h, r) != b && h'[End(h, r)] == h[End(h, r)].(left := b)
    && (forall c :: c in h' && c != b && c != End(h, r) ==> h'[c] == h[c])
  }

  lemma JoinSlots(h: Heap, lo: nat, hi: nat, b: nat)
    requires Tiled(h, lo, hi) && Joinable(h, b)
    ensures Joined(h, Join(h, b), b)
  {
    assert BlkOk(h, lo, hi, b);
    assert BlkOk(h, lo, hi, End(h, b));
  }

  lemma JoinBlk(h: Heap, h': Heap, lo: nat, hi: nat, b: nat, c: nat)
    requires Tiled(h, lo, hi) && Joinable(h, b)
    requires Joined(h, h', b)
    ensures BlkOk(h', lo, hi, c)
  {
    assert BlkOk(h, lo, hi, b);
    assert BlkOk(h, lo, hi, End(h, b));
    if c == b {
      JoinFirst(h, h', lo, hi, b);
    } else if c in h' {
      assert BlkOk(h, lo, hi, c);
      hide *;
      JoinOther(h, h', lo, hi, b, c);
    }
  }

  lemma JoinFirst(h: Heap, h': Heap, lo: nat, hi: nat, b: nat)
    requires Disjoint(h) && Joinable(h, b)
    requires BlkOk(h, lo, hi, b) && BlkOk(h, lo, hi, End(h, b)) && Joined(h, h', b)
    ensures BlkOk(h', lo, hi, b)
  {
    SumAligned(h[b].size, h[End(h, b)].size);
    assert h[b].left != 0 ==> h[b].left != End(h, b);
  }

  lemma SumAligned(s: nat, t: nat)
    requires s % 16 == 0 && t % 16 == 0
    ensures (s + HDR + t) % 16 == 0
  {
  }

  lemma JoinOther(h: Heap, h': Heap, lo: nat, hi: nat, b: nat, c: nat)
    requires Joinable(h, b)
    requires BlkOk(h, lo, hi, b) && BlkOk(h, lo, hi, End(h, b)) && Joined(h, h', b)
    requires BlkOk(h, lo, hi, c) && c != b && c in h'
    ensures BlkOk(h', lo, hi, c)
  {
  }

  lemma CutTiled(h: Heap, lo: nat, hi: nat, b: nat, s: nat)
    requires Tiled(h, lo, hi) && b in h && 0 < s && s % 16 == 0 && s + HDR < h[b].size
    ensures b + HDR + s !in h && End(h, b) in h && End(h, b) != b
    ensures Tiled(Cut(h, b, s), lo, hi)
  {
    assert BlkOk(h, lo, hi, b);
    assert b + HDR + s !in h;
    var h' := Cut(h, b, s);
    assert Halves(h, h', b, s);
    hide Cut;
    forall c: nat ensures BlkOk(h', lo, hi, c) {
      CutBlk(h, h', lo, hi, b, s, c);
    }
    CutDisjoint(h, h', lo, hi, b, s);
  }

  /** The heap after a cut, slot by slot. */
  ghost predicate Halves(h: Heap, h': Heap, b: nat, s: nat)
    requires b in h && h[b].size >= s + HDR
  {
    var b2 := b + HDR + s;
    && (forall c :: c in h' <==> c in h || c == b2)
    && b2 !in h && b in h' && h'[b] == h[b].(size := s) && h'[b2] == Blk(h[b].size - s - HDR, false, b)
    && End(h, b) in h && End(h, b) != b && h'[End(h, b)] == h[End(h, b)].(left := b2)
    && (forall c :: c in h && c != b && c != End(h, b) ==> h'[c] == h[c])
  }

  lemma CutBlk(h: Heap, h': Heap, lo: nat, hi: nat, b: nat, s: nat, c: nat)
    requires Tiled(h, lo, hi) && b in h && 0 < s && s % 16 == 0 && s + HDR < h[b].size
    requires Halves(h, h', b, s)
    ensures BlkOk(h', lo, hi, c)
  {
    assert BlkOk(h, lo, hi, b);
    if c in h {
      assert BlkOk(h, lo, hi, c);
      hide Tiled, Disjoint;
      CutOther(h, h', lo, hi, b, s, c);
    } else {
      hide Tiled, Disjoint;
      CutRests(b, s, h[b].size);
    }
  }

  lemma CutRests(b: nat, s: nat, t: nat)
    requires b % 16 == 0 && s % 16 == 0 && t % 16 == 0 && s + HDR <= t
    ensures (b + HDR + s) % 16 == 0 && (t - s - HDR) % 16 == 0
  {
    assert b == 16 * (b / 16) && s == 16 * (s / 16) && t == 16 * (t / 16);
    QuotientUnique(b + HDR + s, 16, b / 16 + s / 16 + 1, 0);
    QuotientUnique(t - s - HDR, 16, t / 16 - s / 16 - 1, 0);
  }

  lemma CutOther(h: Heap, h': Heap, lo: nat, hi: nat, b: nat, s: nat, c: nat)
    requires b in h && 0 < s && s % 16 == 0 && s + HDR < h[b].size
    requires BlkOk(h, lo, hi, b) && BlkOk(h, lo, hi, c) && c in h && Halves(h, h', b, s)
    ensures BlkOk(h', lo, hi, c)
  {
  }

  lemma InOrder(h: Heap, b: nat, c: nat)
    requires Disjoint(h) && b in h && c in h
    ensures b < c ==> End(h, b) <= c
    ensures c < b ==> End(h, c) <= b
  {
  }

  lemma CutDisjoint(h: Heap, h': Heap, lo: nat, hi: nat, b: nat, s: nat)
    requires Tiled(h, lo, hi) && b in h && 0 < s && s + HDR < h[b].size
    requires Halves(h, h', b, s)
    ensures Disjoint(h')
  {
    var b2 := b + HDR + s;
    forall c, d | c in h' && d in h' && c < d ensures End(h', c) <= d {
      if c in h && d in h { assert End(h, c) <= d; }
      if c in h { InOrder(h, b, c); }
      if d in h { InOrder(h, b, d); }
    }
  }
}
