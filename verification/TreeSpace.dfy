/** How many blocks are free, and how many a write takes. */
module TreeSpace {
  import opened Radix
  import opened Layout
  import opened FreeLists
  import opened TreeSteps
  import opened TreeGrowth
  import opened TreeLevels

  ghost function FreeBlocks(m: Map): set<nat> {
    set b: nat | b < |m.owner| && OnFreeList(m.owner[b])
  }

  ghost function FreeCount(m: Map): nat {
    |FreeBlocks(m)|
  }

  ghost function FileBlocks(m: Map, ino: nat): set<nat> {
    set b: nat | b < |m.owner| && InFile(m.owner[b], ino)
  }

  /** The free list is empty exactly if no block is free. */
  lemma FreeIffListed(d: seq<Block>, r: nat, m: Map)
    requires Core(d, r, m)
    ensures m.height == 0 <==> FreeCount(m) == 0
  {
    if m.height > 0 {
      assert FreeNode(m.height - 1) in m.at;
      assert m.at[FreeNode(m.height - 1)] in FreeBlocks(m);
    } else {
      forall b: nat | b < |m.owner| ensures !OnFreeList(m.owner[b]) {
        assert m.owner[b] in m.at;
      }
      assert FreeBlocks(m) == {};
    }
  }

  /** A block that leaves the free list. */
  lemma OneFewer(m: Map, m': Map, f: nat, s: Slot)
    requires f < |m.owner| && OnFreeList(m.owner[f]) && m'.owner == m.owner[f := s] && !OnFreeList(s)
    ensures FreeCount(m') + 1 == FreeCount(m)
  {
    assert FreeBlocks(m') == FreeBlocks(m) - {f};
  }

  lemma SameFree(m: Map, m': Map)
    requires |m'.owner| == |m.owner|
    requires forall b :: 0 <= b < |m.owner| ==> (OnFreeList(m'.owner[b]) <==> OnFreeList(m.owner[b]))
    ensures FreeCount(m') == FreeCount(m)
  {
    assert FreeBlocks(m') == FreeBlocks(m);
  }

  // ---- what a write needs ----

  /** Levels added above the root when block off is written. */
  ghost function NewLevels(r: nat, size: nat, off: nat): nat
    requires r >= 2
  {
    if off < size then 0 else
      DepthGrows(r, size, off);
      Levels(r, off + 1) - Levels(r, size)
  }

  lemma DepthGrows(r: nat, size: nat, off: nat)
    requires r >= 2 && off >= size
    ensures Levels(r, size) <= Levels(r, off + 1)
  {
    if size > 0 { DigitsMonotone(r, size - 1, off); }
  }

  function SizeAfter(size: nat, off: nat): nat {
    if off < size then size else off + 1
  }

  /** Is there a block at the level-k place above off, once levels above low have been added? */
  ghost predicate OnPath(r: nat, m: Map, ino: nat, off: nat, low: nat, k: nat)
    requires r > 0
  {
    Tree(ino, k, Up(r, off, k)) in m.at || (k > low && Up(r, off, k) == 0)
  }

  /** Places without a block on the way to off, at levels 0 to l. */
  ghost function Holes(r: nat, m: Map, ino: nat, off: nat, low: nat, l: nat): nat
    requires r > 0
  {
    (if OnPath(r, m, ino, off, low, l) then 0 else 1) + (if l == 0 then 0 else Holes(r, m, ino, off, low, l - 1))
  }

  /** Blocks that writing block off of a file takes from the free list. */
  ghost function Needed(r: nat, m: Map, ino: nat, size: nat, off: nat): nat
    requires r >= 2
  {
    NewLevels(r, size, off) + Holes(r, m, ino, off, Levels(r, size), Levels(r, SizeAfter(size, off)))
  }

  lemma {:induction false} HolesSame(r: nat, m: Map, m': Map, ino: nat, off: nat, low: nat, low': nat, l: nat)
    requires r > 0 && forall k: nat :: k <= l ==> (OnPath(r, m, ino, off, low, k) <==> OnPath(r, m', ino, off, low', k))
    ensures Holes(r, m', ino, off, low', l) == Holes(r, m, ino, off, low, l)
  {
    if l > 0 { HolesSame(r, m, m', ino, off, low, low', l - 1); }
  }

  lemma HolesStep(r: nat, m: Map, ino: nat, off: nat, low: nat, l: nat)
    requires r > 0
    ensures l > 0 ==> Holes(r, m, ino, off, low, l) == (if OnPath(r, m, ino, off, low, l) then 0 else 1) + Holes(r, m, ino, off, low, l - 1)
    ensures l == 0 ==> Holes(r, m, ino, off, low, l) == if OnPath(r, m, ino, off, low, l) then 0 else 1
  {
  }

  /** Nothing is missing exactly if the data block is there. */
  lemma {:induction false} NoHoles(r: nat, m: Map, ino: nat, size: nat, off: nat, l: nat)
    requires r >= 2 && TreeSlots(r, m, ino, size) && off < size && l <= Levels(r, size)
    ensures Tree(ino, 0, off) in m.at ==> Holes(r, m, ino, off, Levels(r, size), l) == 0 && Tree(ino, l, Up(r, off, l)) in m.at
    ensures Tree(ino, 0, off) !in m.at ==> Holes(r, m, ino, off, Levels(r, size), l) > 0
  {
    UpZero(r, off);
    if l > 0 {
      NoHoles(r, m, ino, size, off, l - 1);
      UpStep(r, off, l - 1);
      assert TreeSlotOk(r, m, ino, size, l - 1, Up(r, off, l - 1));
    }
  }

  /** A write to a block that is there takes no other. */
  lemma NoneNeeded(r: nat, m: Map, ino: nat, size: nat, off: nat)
    requires r >= 2 && TreeSlots(r, m, ino, size) && off < size
    ensures Needed(r, m, ino, size, off) == 0 <==> Tree(ino, 0, off) in m.at
  {
    NoHoles(r, m, ino, size, off, Levels(r, size));
  }

  // ---- which places come to be occupied ----

  /** Between levels l and top of the walk to off, all places are occupied. */
  ghost predicate Descended(r: nat, m0: Map, m: Map, ino: nat, off: nat, l: nat, top: nat)
    requires r > 0
  {
    forall k: nat, i: nat :: Tree(ino, k, i) in m.at <==> Tree(ino, k, i) in m0.at || OnWay(r, off, k, i, l, top)
  }

  ghost predicate OnWay(r: nat, off: nat, k: nat, i: nat, l: nat, top: nat)
    requires r > 0
  {
    l <= k <= top && i == Up(r, off, k)
  }

  /** The tops of the levels above low are occupied too. */
  ghost predicate Raised(m0: Map, m: Map, ino: nat, low: nat, top: nat) {
    forall k: nat, i: nat :: Tree(ino, k, i) in m.at <==> Tree(ino, k, i) in m0.at || (i == 0 && low < k <= top)
  }

  /** After a write, all places on the way to off are occupied, and the tops of the new levels. */
  ghost predicate Reached(r: nat, m0: Map, m: Map, ino: nat, size: nat, off: nat)
    requires r >= 2
  {
    forall k: nat, i: nat :: Tree(ino, k, i) in m.at <==>
      Tree(ino, k, i) in m0.at || Topped(r, size, off, k, i) || OnWay(r, off, k, i, 0, Levels(r, SizeAfter(size, off)))
  }

  ghost predicate Topped(r: nat, size: nat, off: nat, k: nat, i: nat)
    requires r >= 2
  {
    i == 0 && Levels(r, size) < k <= Levels(r, SizeAfter(size, off))
  }

  /** A block put in a place that was vacant. */
  lemma Placed(n: nat, m: Map, m': Map, f: nat, ino: nat, l: nat, idx: nat)
    requires Partition(n, m) && Partition(n, m') && f < n && OnFreeList(m.owner[f])
    requires m'.owner == m.owner[f := Tree(ino, l, idx)]
    ensures forall x: nat, k: nat, i: nat :: Tree(x, k, i) in m'.at <==> Tree(x, k, i) in m.at || Tree(x, k, i) == Tree(ino, l, idx)
    ensures FreeCount(m') + 1 == FreeCount(m)
  {
    OneFewer(m, m', f, Tree(ino, l, idx));
    forall x: nat, k: nat, i: nat ensures Tree(x, k, i) in m'.at <==> Tree(x, k, i) in m.at || Tree(x, k, i) == Tree(ino, l, idx) {
      var s := Tree(x, k, i);
      if s in m.at { assert m'.owner[m.at[s]] == s; }
      if s in m'.at && m'.at[s] != f { assert m.owner[m'.at[s]] == s; }
      assert m'.owner[f] in m'.at;
    }
  }

  lemma DescendedMore(n: nat, r: nat, m0: Map, m: Map, m': Map, ino: nat, off: nat, f: nat, l: nat, top: nat)
    requires r > 0 && Descended(r, m0, m, ino, off, l + 1, top) && l <= top
    requires Partition(n, m) && Partition(n, m') && f < n && OnFreeList(m.owner[f])
    requires m'.owner == m.owner[f := Tree(ino, l, Up(r, off, l))]
    ensures Descended(r, m0, m', ino, off, l, top) && FreeCount(m') + 1 == FreeCount(m)
  {
    Placed(n, m, m', f, ino, l, Up(r, off, l));
  }

  /** The place at level l is occupied already. */
  lemma DescendedHere(r: nat, m0: Map, m: Map, ino: nat, off: nat, l: nat, top: nat)
    requires r > 0 && Descended(r, m0, m, ino, off, l + 1, top) && l <= top
    ensures Tree(ino, l, Up(r, off, l)) in m.at <==> Tree(ino, l, Up(r, off, l)) in m0.at
    ensures Tree(ino, l, Up(r, off, l)) in m.at ==> Descended(r, m0, m, ino, off, l, top)
  {
  }

  /** The blocks of chain have only left the free list. */
  lemma ChainSlots(n: nat, m0: Map, m: Map, ino: nat, chain: seq<nat>)
    requires Partition(n, m0) && LostBlocks(n, m, chain) && TookChain(m0, m, chain)
    ensures SameSlots(m0, m, ino)
  {
    SlotFrame(n, m0, m, ino);
  }

  lemma RaisedBy(n: nat, m0: Map, md: Map, m: Map, ino: nat, low: nat, chain: seq<nat>)
    requires Partition(n, m0) && LostBlocks(n, md, chain) && TookChain(m0, md, chain)
    requires GrownOwners(n, md, m, ino) && Grown(md, m, ino, low + 1, chain)
    ensures Raised(m0, m, ino, low, low + |chain|) && FreeCount(m) == FreeCount(md)
  {
    ChainSlots(n, m0, md, ino, chain);
    SameFree(md, m);
  }

  /** A write that grows the file: raising, and then the walk down. */
  lemma ReachedBy(r: nat, m0: Map, m1: Map, m2: Map, ino: nat, size: nat, off: nat)
    requires r >= 2 && size <= off
    requires Raised(m0, m1, ino, Levels(r, size), Levels(r, off + 1))
    requires Descended(r, m1, m2, ino, off, 0, Levels(r, off + 1))
    ensures Reached(r, m0, m2, ino, size, off)
  {
  }

  lemma ReachedInside(r: nat, m0: Map, m: Map, ino: nat, size: nat, off: nat)
    requires r >= 2 && off < size && Descended(r, m0, m, ino, off, 0, Levels(r, size))
    ensures Reached(r, m0, m, ino, size, off)
  {
  }

  /** What is missing after the new levels are there is what was to be missing then. */
  lemma HolesRaised(r: nat, m0: Map, m1: Map, ino: nat, size: nat, off: nat)
    requires r >= 2 && size <= off && TreeSlots(r, m0, ino, size)
    requires Raised(m0, m1, ino, Levels(r, size), Levels(r, off + 1))
    ensures Holes(r, m1, ino, off, Levels(r, off + 1), Levels(r, off + 1)) == Holes(r, m0, ino, off, Levels(r, size), Levels(r, off + 1))
  {
    var low, top := Levels(r, size), Levels(r, off + 1);
    NothingAboveRoot(r, m0, ino, size);
    forall k: nat | k <= top ensures OnPath(r, m0, ino, off, low, k) <==> OnPath(r, m1, ino, off, top, k) {
    }
    HolesSame(r, m0, m1, ino, off, low, top, top);
  }
}
