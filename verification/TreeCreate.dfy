/** Creating an empty tree block store on a disk. */
module TreeCreate {
  import opened Radix
  import opened Layout
  import opened TreeDisks

  // ---- the initial layout: consecutive runs of r blocks make up the free list ----

  /** First block of the i-th run; base is the first block after the inode blocks. */
  function RunStart(base: nat, r: nat, i: nat): nat {
    base + i * r
  }

  function InitialSlot(base: nat, r: nat, b: nat): Slot
    requires base > 0 && r >= 2
  {
    if b == 0 then Super
    else if b < base then InodeBlock(b)
    else if (b - base) % r == 0 then FreeNode((b - base) / r)
    else FreeEntry((b - base) / r, (b - base) % r)
  }

  function InitialBlock(base: nat, r: nat, s: Slot): nat {
    match s
    case InodeBlock(k) => k
    case FreeNode(i) => RunStart(base, r, i)
    case FreeEntry(i, j) => RunStart(base, r, i) + j
    case _ => 0
  }

  lemma InitialInverse(base: nat, r: nat, b: nat)
    requires base > 0 && r >= 2
    ensures InitialBlock(base, r, InitialSlot(base, r, b)) == b
  {
    if b >= base {
      assert b - base == r * ((b - base) / r) + (b - base) % r;
    }
  }

  lemma InitialRun(base: nat, r: nat, i: nat, j: nat)
    requires base > 0 && r >= 2 && j < r
    ensures InitialSlot(base, r, RunStart(base, r, i) + j) == if j == 0 then FreeNode(i) else FreeEntry(i, j)
  {
    QuotientUnique(RunStart(base, r, i) + j - base, r, i, j);
  }

  lemma InitialEntry(base: nat, r: nat, b: nat)
    requires base > 0 && r >= 2
    ensures InitialSlot(base, r, b).FreeEntry? ==> 1 <= InitialSlot(base, r, b).j < r
  {
  }

  ghost function InitialMap(n: nat, base: nat, r: nat, height: nat): Map
    requires base > 0 && r >= 2
  {
    var slots := set b: nat | b < n :: InitialSlot(base, r, b);
    Map(seq(n, b requires 0 <= b => InitialSlot(base, r, b)), map s | s in slots :: InitialBlock(base, r, s), height)
  }

  lemma InitialPartition(n: nat, base: nat, r: nat, height: nat)
    requires base > 0 && r >= 2
    ensures var m := InitialMap(n, base, r, height);
      && Partition(n, m)
      && (forall s :: s in m.at <==> InitialBlock(base, r, s) < n && InitialSlot(base, r, InitialBlock(base, r, s)) == s)
      && (forall s :: s in m.at ==> m.at[s] == InitialBlock(base, r, s))
  {
    var m := InitialMap(n, base, r, height);
    forall b: nat | b < n ensures InitialBlock(base, r, InitialSlot(base, r, b)) == b {
      InitialInverse(base, r, b);
    }
    forall s ensures s in m.at <==> InitialBlock(base, r, s) < n && InitialSlot(base, r, InitialBlock(base, r, s)) == s {
      if s in m.at {
        var b: nat :| b < n && s == InitialSlot(base, r, b);
      }
    }
  }

  /** Contents of the free-list node that starts the i-th run. */
  ghost predicate RunNode(blk: Block, n: nat, base: nat, r: nat, i: nat)
    requires |blk| == r && r >= 2
  {
    && blk[0] == (if i == 0 then 0 else RunStart(base, r, i - 1))
    && forall j :: 1 <= j < r ==> blk[j] == if RunStart(base, r, i) + j < n then RunStart(base, r, i) + j else 0
  }

  /** Runs 0 .. runs-1 have been written. */
  ghost predicate RunsWritten(d: seq<Block>, base: nat, r: nat, runs: nat)
    requires Sized(d, r)
  {
    forall i: nat :: i < runs ==> RunOk(d, base, r, i)
  }

  ghost predicate RunOk(d: seq<Block>, base: nat, r: nat, i: nat)
    requires Sized(d, r)
  {
    RunStart(base, r, i) < |d| && RunNode(d[RunStart(base, r, i)], |d|, base, r, i)
  }

  lemma RunsApart(base: nat, r: nat, i: nat, k: nat)
    requires r >= 2 && i < k
    ensures RunStart(base, r, i) + r <= RunStart(base, r, k)
  {
    MulMonotone(r, i + 1, k);
  }

  /** A freshly created store. */
  ghost predicate Fresh(d: seq<Block>, r: nat, base: nat, runs: nat)
    requires Sized(d, r)
  {
    && 1 <= base <= |d|
    && NumInodeBlocks(d) == base - 1
    && Top(d) == (if runs == 0 then 0 else RunStart(base, r, runs - 1))
    && (forall k :: 1 <= k < base ==> d[k] == Zeros(r))
    && RunsWritten(d, base, r, runs)
    && RunStart(base, r, runs) >= |d|
  }

  lemma FreshCore(d: seq<Block>, r: nat, base: nat, runs: nat)
    requires Sized(d, r) && Fresh(d, r, base, runs)
    ensures Core(d, r, InitialMap(|d|, base, r, runs))
  {
    var n, m := |d|, InitialMap(|d|, base, r, runs);
    InitialPartition(n, base, r, runs);
    InitialHeight(n, base, r, runs);
    FreshFixed(d, r, base, m);
    FreshSlots(d, r, base, runs, m);
    hide *;
    FreshFreeList(d, r, base, runs, m);
    CoreParts(d, r, m);
  }

  lemma CoreParts(d: seq<Block>, r: nat, m: Map)
    requires Sized(d, r) && Partition(|d|, m) && FixedPart(d, m) && FreeList(d, r, m)
    ensures Core(d, r, m)
  {
  }

  lemma FreshFreeList(d: seq<Block>, r: nat, base: nat, runs: nat, m: Map)
    requires Sized(d, r) && Fresh(d, r, base, runs)
    requires Partition(|d|, m) && FreeSlots(r, m) && m.height == runs
    requires forall s :: s in m.at ==> m.at[s] == InitialBlock(base, r, s)
    requires forall k: nat, j: nat :: 1 <= j < r && RunStart(base, r, k) + j < |d| ==> FreeEntry(k, j) in m.at
    ensures FreeList(d, r, m)
  {
    hide InitialSlot, RunNode;
    forall i: nat ensures FreeNodeOk(d, r, m, i) {
      if FreeNode(i) in m.at { FreshNode(d, r, base, runs, m, i); }
    }
    if runs > 0 { assert FreeNode(runs - 1) in m.at; }
  }

  lemma FreshFixed(d: seq<Block>, r: nat, base: nat, m: Map)
    requires Sized(d, r) && 1 <= base <= |d| && NumInodeBlocks(d) == base - 1
    requires forall s :: s in m.at <==> InitialBlock(base, r, s) < |d| && InitialSlot(base, r, InitialBlock(base, r, s)) == s
    requires forall s :: s in m.at ==> m.at[s] == InitialBlock(base, r, s)
    ensures FixedPart(d, m)
  {
    assert InitialSlot(base, r, 0) == Super;
    forall k: nat ensures InodeBlock(k) in m.at <==> 1 <= k <= NumInodeBlocks(d) {
      assert InitialBlock(base, r, InodeBlock(k)) == k;
    }
    forall b: nat ensures Lost(b) !in m.at {
      assert InitialBlock(base, r, Lost(b)) == 0;
    }
  }

  lemma InitialHeight(n: nat, base: nat, r: nat, runs: nat)
    requires base > 0 && r >= 2
    ensures InitialMap(n, base, r, runs).height == runs
  {
  }

  lemma FreshSlots(d: seq<Block>, r: nat, base: nat, runs: nat, m: Map)
    requires Sized(d, r) && Fresh(d, r, base, runs) && m == InitialMap(|d|, base, r, runs)
    requires forall s :: s in m.at <==> InitialBlock(base, r, s) < |d| && InitialSlot(base, r, InitialBlock(base, r, s)) == s
    ensures m.height == runs && FreeSlots(r, m)
    ensures forall i: nat, j: nat :: 1 <= j < r && RunStart(base, r, i) + j < |d| ==> FreeEntry(i, j) in m.at
  {
    hide InitialSlot, InitialMap;
    InitialHeight(|d|, base, r, runs);
    forall i: nat ensures FreeNode(i) in m.at <==> i < runs {
      InitialRun(base, r, i, 0);
      if i < runs { assert RunOk(d, base, r, i); }
      assert InitialBlock(base, r, FreeNode(i)) == RunStart(base, r, i);
      if i > runs { RunsApart(base, r, runs, i); }
    }
    forall i: nat, j: nat
      ensures FreeEntry(i, j) in m.at ==> i < runs && 1 <= j < r
      ensures 1 <= j < r && RunStart(base, r, i) + j < |d| ==> FreeEntry(i, j) in m.at
    {
      assert InitialBlock(base, r, FreeEntry(i, j)) == RunStart(base, r, i) + j;
      if j < r { InitialRun(base, r, i, j); }
      if FreeEntry(i, j) in m.at { InitialEntry(base, r, RunStart(base, r, i) + j); }
      if i > runs { RunsApart(base, r, runs, i); }
    }
  }

  lemma FreshNode(d: seq<Block>, r: nat, base: nat, runs: nat, m: Map, i: nat)
    requires Sized(d, r) && Fresh(d, r, base, runs)
    requires Partition(|d|, m) && FreeSlots(r, m) && m.height == runs && i < runs
    requires forall s :: s in m.at ==> m.at[s] == InitialBlock(base, r, s) < |d|
    requires forall k: nat, j: nat :: 1 <= j < r && RunStart(base, r, k) + j < |d| ==> FreeEntry(k, j) in m.at
    ensures FreeNodeOk(d, r, m, i)
  {
    var b := RunStart(base, r, i);
    assert RunOk(d, base, r, i);
    assert FreeNode(i) in m.at && m.at[FreeNode(i)] == b;
    if i > 0 { assert FreeNode(i - 1) in m.at; }
    forall j: nat | 1 <= j < r ensures d[b][j] == At(m, FreeEntry(i, j)) {
      assert FreeEntry(i, j) in m.at ==> m.at[FreeEntry(i, j)] == b + j;
    }
  }

  /** n files without blocks. */
  ghost function EmptyFiles(n: nat): seq<seq<Block>> {
    seq(n, _ => [])
  }

  /** A fresh store holds empty files only, and all other blocks are free. */
  lemma FreshInv(d: seq<Block>, r: nat, base: nat, runs: nat)
    requires Sized(d, r) && Fresh(d, r, base, runs)
    ensures var m := InitialMap(|d|, base, r, runs);
      && Inv(d, r, m)
      && Store(d, r, m) == EmptyFiles(NumInodes(d, r))
      && (forall b :: base <= b < |d| ==> m.owner[b].FreeNode? || m.owner[b].FreeEntry?)
  {
    var m := InitialMap(|d|, base, r, runs);
    FreshCore(d, r, base, runs);
    InitialPartition(|d|, base, r, runs);
    assert forall b :: base <= b < |d| ==> m.owner[b] == InitialSlot(base, r, b);
    forall ino: nat, l: nat, idx: nat ensures Tree(ino, l, idx) !in m.at {
      assert InitialBlock(base, r, Tree(ino, l, idx)) == 0;
    }
    hide InitialMap, Core;
    forall ino: nat | ino < NumInodes(d, r) ensures FileOk(d, r, m, ino) && File(d, r, m, ino) == [] {
      FreshFile(d, r, base, runs, m, ino);
    }
  }

  lemma FreshFile(d: seq<Block>, r: nat, base: nat, runs: nat, m: Map, ino: nat)
    requires Sized(d, r) && Fresh(d, r, base, runs) && Core(d, r, m) && ino < NumInodes(d, r)
    requires forall x: nat, l: nat, idx: nat :: Tree(x, l, idx) !in m.at
    ensures FileOk(d, r, m, ino) && File(d, r, m, ino) == []
  {
    InodeInRange(d, r, ino);
    assert d[InodeBlockNo(r, ino)] == Zeros(r);
    forall l: nat, idx: nat ensures TreeSlotOk(r, m, ino, 0, l, idx) {}
    forall l: nat, idx: nat ensures TreeRefsOk(d, r, m, ino, l, idx) {}
  }

  // ---- the code ----

  datatype Creation = TooFewBlocks | Initialized | AlreadyThere | Aborted

  /** Links all blocks from nextFree on into a free list; returns its first node. */
  method SetupFreelist(below: BlockStore, r: nat, nextFree: Word) returns (freelistBlock: Word, ghost runs: nat)
    requires Sized(below.blocks, r) && 1 <= nextFree <= |below.blocks|
    modifies below
    ensures |below.blocks| == |old(below.blocks)| && Sized(below.blocks, r)
    ensures forall b :: 0 <= b < nextFree ==> below.blocks[b] == old(below.blocks)[b]
    ensures RunsWritten(below.blocks, nextFree, r, runs) && RunStart(nextFree, r, runs) >= |below.blocks|
    ensures freelistBlock == if runs == 0 then 0 else RunStart(nextFree, r, runs - 1)
  {
    var nblocks := |below.blocks|;
    ghost var d0 := below.blocks;
    var next := nextFree;
    freelistBlock, runs := 0, 0;
    while next < nblocks
      invariant |below.blocks| == nblocks && Sized(below.blocks, r)
      invariant next == (if RunStart(nextFree, r, runs) < nblocks then RunStart(nextFree, r, runs) else nblocks)
      invariant freelistBlock == if runs == 0 then 0 else RunStart(nextFree, r, runs - 1)
      invariant forall b :: 0 <= b < nextFree ==> below.blocks[b] == d0[b]
      invariant RunsWritten(below.blocks, nextFree, r, runs)
    {
      var data: Block := Put(Zeros(r), 0, freelistBlock);
      freelistBlock := next;
      next := next + 1;
      var i := 1;
      while i < r && next < nblocks
        invariant 1 <= i <= r && |data| == r
        invariant next == freelistBlock + i <= nblocks
        invariant data[0] == if runs == 0 then 0 else RunStart(nextFree, r, runs - 1)
        invariant forall j :: 1 <= j < i ==> data[j] == freelistBlock + j
        invariant forall j :: i <= j < r ==> data[j] == 0
      {
        data := Put(data, i, next);
        next := next + 1;
        i := i + 1;
      }
      WriteRun(below.blocks, nextFree, r, runs, data);
      below.Write(freelistBlock, data);
      RunsApart(nextFree, r, runs, runs + 1);
      runs := runs + 1;
    }
  }

  lemma WriteRun(d: seq<Block>, base: nat, r: nat, runs: nat, data: Block)
    requires Sized(d, r) && RunsWritten(d, base, r, runs) && RunStart(base, r, runs) < |d| && |data| == r
    requires RunNode(data, |d|, base, r, runs)
    ensures RunsWritten(d[RunStart(base, r, runs) := data], base, r, runs + 1)
  {
    var d' := d[RunStart(base, r, runs) := data];
    forall i: nat | i < runs + 1
      ensures RunOk(d', base, r, i)
    {
      if i < runs {
        assert RunOk(d, base, r, i);
        RunsApart(base, r, i, runs);
      }
    }
  }

  /** Number of inode blocks needed for ninodes inodes. */
  function InodeBlocksFor(ninodes: nat, r: nat): nat
    requires r >= 2
  {
    (ninodes + r / 2 - 1) / (r / 2)
  }

  /** Initializes a file system with room for ninodes files, unless there already is one. */
  method Create(below: BlockStore, r: nat, ninodes: Word) returns (result: Creation, ghost m: Map)
    requires Sized(below.blocks, r) && InodeBlocksFor(ninodes, r) + 2 < TWO32
    modifies below
    ensures result.Initialized? ==>
      && Inv(below.blocks, r, m)
      && NumInodeBlocks(below.blocks) == InodeBlocksFor(ninodes, r)
      && ninodes <= NumInodes(below.blocks, r) < ninodes + r / 2
      && Store(below.blocks, r, m) == EmptyFiles(NumInodes(below.blocks, r))
      && forall b :: NumInodeBlocks(below.blocks) < b < |below.blocks| ==> m.owner[b].FreeNode? || m.owner[b].FreeEntry?
    ensures !result.Initialized? ==> below.blocks == old(below.blocks)
    ensures |below.blocks| == |old(below.blocks)|
    ensures result ==
      if |old(below.blocks)| < InodeBlocksFor(ninodes, r) + 2 then TooFewBlocks
      else if NumInodeBlocks(old(below.blocks)) == 0 then Initialized
      else if NumInodeBlocks(old(below.blocks)) < InodeBlocksFor(ninodes, r) then Aborted else AlreadyThere
  {
    m := Map([], map[], 0);
    var nInodeBlocks := InodeBlocksFor(ninodes, r);
    if |below.blocks| < nInodeBlocks + 2 {
      return TooFewBlocks, m;
    }
    var superblock := below.Read(0);
    if superblock[0] != 0 {
      if superblock[0] < nInodeBlocks {
        return Aborted, m;
      }
      return AlreadyThere, m;
    }
    RoundedUp(ninodes, r);
    hide InodeBlocksFor, RunsWritten;
    var base := nInodeBlocks + 1;
    var top, runs := SetupFreelist(below, r, base);
    ghost var d0 := below.blocks;
    below.Write(0, Put(Put(Zeros(r), 0, nInodeBlocks), 1, top));
    ghost var d1 := below.blocks;
    RunsKept(d0, d1, base, r, runs);
    var i := 1;
    while i <= nInodeBlocks
      invariant 1 <= i <= nInodeBlocks + 1
      invariant |below.blocks| == |d1| && Sized(below.blocks, r)
      invariant below.blocks[0] == d1[0]
      invariant forall k :: 1 <= k < i ==> below.blocks[k] == Zeros(r)
      invariant forall b :: base <= b < |d1| ==> below.blocks[b] == d1[b]
    {
      below.Write(i, Zeros(r));
      i := i + 1;
    }
    RunsKept(d1, below.blocks, base, r, runs);
    m := InitialMap(|below.blocks|, base, r, runs);
    FreshInv(below.blocks, r, base, runs);
    result := Initialized;
  }

  lemma RunsKept(d: seq<Block>, d': seq<Block>, base: nat, r: nat, runs: nat)
    requires Sized(d, r) && Sized(d', r) && |d| == |d'| && RunsWritten(d, base, r, runs)
    requires forall b :: base <= b < |d| ==> d'[b] == d[b]
    ensures RunsWritten(d', base, r, runs)
  {
    forall i: nat | i < runs ensures RunOk(d', base, r, i) {
      assert RunOk(d, base, r, i);
    }
  }

  lemma RoundedUp(ninodes: nat, r: nat)
    requires r >= 2
    ensures ninodes <= InodeBlocksFor(ninodes, r) * (r / 2) < ninodes + r / 2
  {
    var p := r / 2;
    assert ninodes + p - 1 == p * InodeBlocksFor(ninodes, r) + (ninodes + p - 1) % p;
  }
}
