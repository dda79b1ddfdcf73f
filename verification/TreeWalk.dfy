/** The step repeated by a walk down a file's tree: follow, or first fill in, one reference. */
module TreeWalk {
  import opened Radix
  import opened Layout
  import opened FreeLists
  import opened TreeSteps
  import opened TreeGrowth

  /** Word index of block parent is where the reference to the level-l node above off is kept. */
  ghost predicate AtParent(d: seq<Block>, r: nat, m: Map, ino: nat, l: nat, off: nat, parent: nat, index: nat)
    requires Core(d, r, m)
  {
    && ino < NumInodes(d, r) && off < Size(d, r, ino) && l <= Levels(r, Size(d, r, ino))
    && if l == Levels(r, Size(d, r, ino)) then
         parent == InodeBlockNo(r, ino) && index == InodeWord(r, ino)
       else
         Tree(ino, l + 1, Up(r, off, l + 1)) in m.at
         && parent == m.at[Tree(ino, l + 1, Up(r, off, l + 1))] && index == Digit(r, off, l)
  }

  lemma ParentHolds(d: seq<Block>, r: nat, m: Map, ino: nat, l: nat, off: nat, parent: nat, index: nat)
    requires Inv(d, r, m) && AtParent(d, r, m, ino, l, off, parent, index)
    ensures 0 < parent < |d| && index < r
    ensures m.owner[parent].InodeBlock? || m.owner[parent].Tree?
    ensures d[parent][index] == At(m, Tree(ino, l, Up(r, off, l)))
    ensures d[parent][index] == 0 <==> Tree(ino, l, Up(r, off, l)) !in m.at
    ensures d[parent][index] < |d|
  {
    assert FileOk(d, r, m, ino);
    assert m.owner[0] == Super by { assert m.at[Super] == 0; }
    if l == Levels(r, Size(d, r, ino)) {
      InodeBlockOwner(d, r, m, ino);
      TopIndex(r, off, Size(d, r, ino));
    } else {
      var x := Up(r, off, l + 1);
      assert TreeRefsOk(d, r, m, ino, l + 1, x);
      assert m.owner[parent] == Tree(ino, l + 1, x);
      UpStep(r, off, l);
    }
  }

  /** Going down one reference ends at the parent of the next. */
  lemma ParentBelow(d: seq<Block>, r: nat, m: Map, ino: nat, l: nat, off: nat, b: nat)
    requires Core(d, r, m) && ino < NumInodes(d, r) && off < Size(d, r, ino)
    requires 0 < l <= Levels(r, Size(d, r, ino))
    requires Tree(ino, l, Up(r, off, l)) in m.at && b == m.at[Tree(ino, l, Up(r, off, l))]
    ensures AtParent(d, r, m, ino, l - 1, off, b, Digit(r, off, l - 1))
  {
  }

  /** Contents of blocks outside the free list do not matter to it. */
  lemma CoreElsewhere(d: seq<Block>, r: nat, m: Map, x: nat, blk: Block)
    requires Core(d, r, m) && x < |d| && |blk| == r && !FreeOwned(m.owner[x])
    ensures x > 0 && Core(d[x := blk], r, m)
  {
    assert m.owner[0] == Super by { assert m.at[Super] == 0; }
    SameFixedCore(d, m, d[x := blk], m, r);
  }

  /** Allocation does not look at, or change, a block outside the free list. */
  lemma AllocElsewhere(d: seq<Block>, r: nat, m: Map, x: nat, blk: Block)
    requires Core(d, r, m) && x < |d| && |blk| == r && !FreeOwned(m.owner[x])
    ensures Core(d[x := blk], r, m)
    ensures Top(d) < |d| && Top(d[x := blk]) == Top(d)
    ensures m.height > 0 ==>
      && AllocMap(d[x := blk], r, m) == AllocMap(d, r, m)
      && Alloc(d, r).Got? && Alloc(d[x := blk], r) == Got(Alloc(d, r).block, Alloc(d, r).disk[x := blk])
  {
    hide FreeList, FixedPart, Partition, AllocStep, Moved;
    CoreElsewhere(d, r, m, x, blk);
    TopIsNode(d, r, m);
    AllocCore(d, r, m);
    AllocCore(d[x := blk], r, m);
    if m.height > 0 {
      assert Alloc(d[x := blk], r).disk == Alloc(d, r).disk[x := blk];
    }
  }

  /** Allocation keeps every file. */
  lemma AllocKeepsFiles(d: seq<Block>, r: nat, m: Map)
    requires Inv(d, r, m) && m.height > 0
    ensures Top(d) < |d| && Alloc(d, r).Got?
    ensures AllocStep(d, r, m, Alloc(d, r).disk, AllocMap(d, r, m), Alloc(d, r).block)
    ensures Inv(Alloc(d, r).disk, r, AllocMap(d, r, m))
    ensures Store(Alloc(d, r).disk, r, AllocMap(d, r, m)) == Store(d, r, m)
  {
    AllocCore(d, r, m);
    FilesFrame(d, m, Alloc(d, r).disk, AllocMap(d, r, m), r);
  }

  /** Inodes are unchanged by a step that keeps all inode blocks. */
  lemma SameInode(d: seq<Block>, d': seq<Block>, r: nat, m: Map, ino: nat)
    requires Core(d, r, m) && Sized(d', r) && |d'| == |d| && NumInodeBlocks(d') == NumInodeBlocks(d)
    requires ino < NumInodes(d, r)
    requires forall b :: 0 <= b < |d| && m.owner[b].InodeBlock? ==> d'[b] == d[b]
    ensures Root(d', r, ino) == Root(d, r, ino) && Size(d', r, ino) == Size(d, r, ino)
    ensures InodeBlockNo(r, ino) < |d| && d'[InodeBlockNo(r, ino)] == d[InodeBlockNo(r, ino)]
  {
    InodeBlockOwner(d, r, m, ino);
  }

  ghost function LinkMap(m: Map, f: nat, ino: nat, l: nat, idx: nat): Map
    requires f < |m.owner|
  {
    Move(m, f, Tree(ino, l, idx))
  }

  /** A free block is stored in a vacant reference: the file gains block blk. */
  lemma LinkAt(d: seq<Block>, r: nat, m: Map, ino: nat, l: nat, off: nat, parent: nat, index: nat, f: Word, blk: Block)
    requires Inv(d, r, m) && AtParent(d, r, m, ino, l, off, parent, index)
    requires parent < |d| && index < r && d[parent][index] == 0
    requires f < |d| && m.owner[f] == Lost(f) && |blk| == r && (l > 0 ==> blk == Zeros(r))
    ensures f != parent
    ensures var d' := d[parent := Put(d[parent], index, f)][f := blk];
      var m' := LinkMap(m, f, ino, l, Up(r, off, l));
      && Inv(d', r, m')
      && Store(d', r, m') == Store(d, r, m)[ino := Filled(File(d, r, m, ino), l, off, blk)]
      && Partition(|d|, m') && m'.owner == m.owner[f := Tree(ino, l, Up(r, off, l))]
      && m'.height == m.height
  {
    ParentHolds(d, r, m, ino, l, off, parent, index);
    var m' := LinkMap(m, f, ino, l, Up(r, off, l));
    MoveMoves(|d|, m, f, Tree(ino, l, Up(r, off, l)), m.height);
    var d' := d[parent := Put(d[parent], index, f)][f := blk];
    if l == Levels(r, Size(d, r, ino)) {
      TopIndex(r, off, Size(d, r, ino));
      InodeRoot(d, r, m, ino, f);
      assert d' == d[InodeBlockNo(r, ino) := PutInode(d, r, ino, f, Size(d, r, ino))][f := blk];
      LinkRoot(d, m, m', r, ino, off, f, blk, d');
    } else {
      LinkChild(d, m, m', r, ino, l, off, f, blk);
      assert d' == LinkBelow(d, parent, Digit(r, off, l), f, blk);
    }
  }

  lemma InodeRoot(d: seq<Block>, r: nat, m: Map, ino: nat, f: Word)
    requires Core(d, r, m) && ino < NumInodes(d, r)
    ensures InodeBlockNo(r, ino) < |d|
    ensures Put(d[InodeBlockNo(r, ino)], InodeWord(r, ino), f) == PutInode(d, r, ino, f, Size(d, r, ino))
  {
    InodeBlockOwner(d, r, m, ino);
  }

  /** Nothing hangs below a vacant slot: the data block above which it lies is a hole. */
  lemma {:induction false} VacantAncestor(r: nat, m: Map, ino: nat, size: nat, l: nat, off: nat)
    requires r >= 2 && TreeSlots(r, m, ino, size) && l <= Levels(r, size)
    requires Tree(ino, l, Up(r, off, l)) !in m.at
    ensures Tree(ino, 0, off) !in m.at
    decreases l
  {
    if l == 0 {
      UpZero(r, off);
    } else {
      UpStep(r, off, l - 1);
      assert TreeSlotOk(r, m, ino, size, l - 1, Up(r, off, l - 1));
      VacantAncestor(r, m, ino, size, l - 1, off);
    }
  }

  /** One step of a read. */
  lemma ReadStep(d: seq<Block>, r: nat, m: Map, ino: nat, l: nat, off: nat, b: nat)
    requires Inv(d, r, m) && ino < NumInodes(d, r) && off < Size(d, r, ino) && l <= Levels(r, Size(d, r, ino))
    requires b == At(m, Tree(ino, l, Up(r, off, l)))
    ensures b < |d|
    ensures b == 0 ==> Content(d, r, m, ino, off) == Zeros(r)
    ensures b != 0 && l == 0 ==> d[b] == Content(d, r, m, ino, off)
    ensures b != 0 && l > 0 ==> d[b][Digit(r, off, l - 1)] == At(m, Tree(ino, l - 1, Up(r, off, l - 1)))
  {
    assert FileOk(d, r, m, ino);
    assert m.owner[0] == Super by { assert m.at[Super] == 0; }
    UpZero(r, off);
    if b == 0 {
      VacantAncestor(r, m, ino, Size(d, r, ino), l, off);
    } else if l > 0 {
      assert TreeRefsOk(d, r, m, ino, l, Up(r, off, l));
      UpStep(r, off, l - 1);
    }
  }

  /** Allocation leaves the walk where it is. */
  lemma StillAtParent(d: seq<Block>, r: nat, m: Map, d': seq<Block>, m': Map, ino: nat, l: nat, off: nat, p: nat,
          index: nat)
    requires Core(d, r, m) && Core(d', r, m') && |d'| == |d| && NumInodeBlocks(d') == NumInodeBlocks(d)
    requires AtParent(d, r, m, ino, l, off, p, index) && p < |d| && m'.owner[p] == m.owner[p]
    requires Size(d', r, ino) == Size(d, r, ino)
    ensures AtParent(d', r, m', ino, l, off, p, index)
  {
    if l < Levels(r, Size(d, r, ino)) {
      assert m.owner[p] == Tree(ino, l + 1, Up(r, off, l + 1));
    }
  }

  /** The contents of a tree block do not matter to the fixed part and the free list. */
  lemma CoreWithout(d: seq<Block>, r: nat, m: Map, f: nat, blk: Block)
    requires f < |d| && |d[f]| == r && Core(d[f := blk], r, m) && m.owner[f].Tree?
    ensures Core(d, r, m)
  {
    assert m.owner[0] == Super by { assert m.at[Super] == 0; }
    forall b | 0 <= b < |d| ensures |d[b]| == r { assert |d[f := blk][b]| == r; }
    SameFixedCore(d[f := blk], m, d, m, r);
  }
}
