/** The tree block store: many growing block files on one flat disk. */
module TreeDisks {
  import opened Radix
  import opened Layout
  import opened FreeLists
  import opened TreeSteps
  import opened TreeGrowth
  import opened TreeLevels
  import opened TreeFree
  import opened TreeSpace
  import opened TreeWalk

  /** The block store below: a plain array of blocks. */
  class BlockStore {
    var blocks: seq<Block>

    constructor (contents: seq<Block>)
      ensures blocks == contents
    {
      blocks := contents;
    }

    method Read(b: nat) returns (blk: Block)
      requires b < |blocks|
      ensures blk == blocks[b]
    {
      blk := blocks[b];
    }

    method Write(b: nat, blk: Block)
      requires b < |blocks|
      modifies this
      ensures blocks == old(blocks)[b := blk]
    {
      blocks := blocks[b := blk];
    }
  }

  /** In-memory copies an operation works on, and where the inode sits in its block. */
  class Snapshot {
    var superblock: Block
    var inodeblock: Block
    var inodeBlockNo: nat
    var word: nat

    constructor (superblock: Block, inodeblock: Block, inodeBlockNo: nat, word: nat)
      ensures this.superblock == superblock && this.inodeblock == inodeblock
      ensures this.inodeBlockNo == inodeBlockNo && this.word == word
    {
      this.superblock := superblock;
      this.inodeblock := inodeblock;
      this.inodeBlockNo := inodeBlockNo;
      this.word := word;
    }
  }

  datatype Outcome = Done | Refused | Panicked

  // ---- what the store promises ----

  ghost function Extended(file: seq<Block>, r: nat, size: nat): (f: seq<Block>)
    ensures |f| == if |file| >= size then |file| else size
  {
    if |file| >= size then file else Padded(file, r, size)
  }

  /** Writing block off of file ino: the file grows with zero blocks as far as needed. */
  ghost function Written(s: seq<seq<Block>>, r: nat, ino: nat, off: nat, blk: Block): seq<seq<Block>>
    requires ino < |s|
  {
    s[ino := Extended(s[ino], r, off + 1)[off := blk]]
  }

  /** Blocks only moved from the free list into file ino (or, after a panic, got lost). */
  ghost predicate Took(m: Map, m': Map, ino: nat, lost: bool) {
    && |m'.owner| == |m.owner|
    && forall b :: 0 <= b < |m.owner| ==>
         || m'.owner[b] == m.owner[b]
         || ((m.owner[b].FreeNode? || m.owner[b].FreeEntry?) && (InFile(m'.owner[b], ino) || (lost && m'.owner[b].Lost?)))
  }

  /** The disk after a hole on the way to off was filled: the file has one hole less. */
  ghost predicate FilledWith(d: seq<Block>, m: Map, d': seq<Block>, m': Map, r: nat, ino: nat, l: nat, off: nat,
          blk: Block)
    requires Inv(d, r, m) && ino < NumInodes(d, r) && off < Size(d, r, ino)
  {
    && |d'| == |d| && Inv(d', r, m') && NumInodeBlocks(d') == NumInodeBlocks(d)
    && Size(d', r, ino) == Size(d, r, ino)
    && Store(d', r, m') == Store(d, r, m)[ino := Filled(File(d, r, m, ino), l, off, blk)]
    && Took(m, m', ino, false)
    && Tree(ino, l, Up(r, off, l)) in m'.at
  }

  /** Allocating f from d0 and then writing the parent block is such a step. */
  lemma FillStep(d0: seq<Block>, m0: Map, d1: seq<Block>, m1: Map, r: nat, ino: nat, l: nat, off: nat,
      p: nat, parent: Block, index: nat, f: Word, blk: Block)
    requires p < |d0| == |d1| && |parent| == r && index < r && parent[index] == 0 && |blk| == r
    requires (l > 0 ==> blk == Zeros(r))
    requires Core(d0, r, m0) && Inv(d0[p := parent], r, m0)
    requires AtParent(d0[p := parent], r, m0, ino, l, off, p, index)
    requires AllocStep(d0, r, m0, d1, m1, f) && AllocStep(d0[p := parent], r, m0, d1[p := parent], m1, f)
    requires Inv(d1[p := parent], r, m1) && Store(d1[p := parent], r, m1) == Store(d0[p := parent], r, m0)
    ensures var d2 := d1[p := Put(parent, index, f)];
      var m2 := LinkMap(m1, f, ino, l, Up(r, off, l));
      && Core(d2, r, m2)
      && FilledWith(d0[p := parent], m0, d2[f := blk], m2, r, ino, l, off, blk)
      && m2.owner == m0.owner[f := Tree(ino, l, Up(r, off, l))] && OnFreeList(m0.owner[f])
      && (m2.height == 0 ==> d2[f] == Zeros(r))
      && d2[0] == d1[0]
  {
    hide Files, FreeList, Took;
    var dv, dv1 := d0[p := parent], d1[p := parent];
    ParentHolds(dv, r, m0, ino, l, off, p, index);
    SameInode(dv, dv1, r, m0, ino);
    assert m1.owner[p] == m0.owner[p];
    StillAtParent(dv, r, m0, dv1, m1, ino, l, off, p, index);
    LinkAt(dv1, r, m1, ino, l, off, p, index, f, blk);
    var d2 := d1[p := Put(parent, index, f)];
    var m2 := LinkMap(m1, f, ino, l, Up(r, off, l));
    FilledDisk(d1, p, parent, index, f, blk);
    CoreWithout(d2, r, m2, f, blk);
    FillTook(m0, m1, m2, f, ino, l, off, r);
    assert Store(dv1, r, m1)[ino] == Store(dv, r, m0)[ino];
    assert |Store(d2[f := blk], r, m2)[ino]| == |Store(dv, r, m0)[ino]|;
  }

  lemma FilledDisk(d: seq<Block>, p: nat, parent: Block, index: nat, f: Word, blk: Block)
    requires p < |d| && f < |d| && f != p && index < |parent|
    ensures d[p := Put(parent, index, f)][f := blk] == d[p := parent][p := Put(d[p := parent][p], index, f)][f := blk]
  {
  }

  lemma FillTook(m0: Map, m1: Map, m2: Map, f: nat, ino: nat, l: nat, off: nat, r: nat)
    requires r > 0 && f < |m0.owner| && (m0.owner[f].FreeNode? || m0.owner[f].FreeEntry?)
    requires m1.owner == m0.owner[f := Lost(f)] && m2.owner == m1.owner[f := Tree(ino, l, Up(r, off, l))]
    ensures Took(m0, m2, ino, false)
  {
  }

  lemma DigitsGrow(r: nat, size: nat, size': nat)
    requires r >= 2 && size < size'
    ensures Levels(r, size) <= Levels(r, size')
  {
    if size > 0 { DigitsMonotone(r, size - 1, size' - 1); }
  }

  /** The words of an updated inode block. */
  lemma InodePut(d: seq<Block>, r: nat, m: Map, ino: nat, root: Word, size': Word)
    requires Core(d, r, m) && ino < NumInodes(d, r)
    ensures InodeBlockNo(r, ino) < |d|
    ensures Put(d[InodeBlockNo(r, ino)], InodeWord(r, ino) + 1, size') == PutInode(d, r, ino, Root(d, r, ino), size')
    ensures PutInode(d, r, ino, root, size')[InodeWord(r, ino)] == root
    ensures forall f: Word :: Put(PutInode(d, r, ino, root, size'), InodeWord(r, ino), f) == PutInode(d, r, ino, f, size')
  {
    InodeBlockOwner(d, r, m, ino);
  }

  /** File ino has been extended with zero blocks, using free blocks for its new levels. */
  ghost predicate GrownTo(d: seq<Block>, m: Map, d': seq<Block>, m': Map, r: nat, ino: nat, size': Word)
    requires Inv(d, r, m) && ino < NumInodes(d, r) && Size(d, r, ino) < size'
  {
    && |d'| == |d| && Inv(d', r, m') && NumInodeBlocks(d') == NumInodeBlocks(d)
    && Size(d', r, ino) == size'
    && Store(d', r, m') == Store(d, r, m)[ino := Padded(File(d, r, m, ino), r, size')]
    && Took(m, m', ino, false)
  }

  /** No file changed, but blocks may have been lost. */
  ghost predicate NotGrown(d: seq<Block>, m: Map, d': seq<Block>, m': Map, r: nat, ino: nat)
    requires Inv(d, r, m)
  {
    && |d'| == |d| && Inv(d', r, m') && NumInodeBlocks(d') == NumInodeBlocks(d)
    && Store(d', r, m') == Store(d, r, m)
    && Took(m, m', ino, true)
  }

  lemma GrownEnough(d0: seq<Block>, m0: Map, d: seq<Block>, m: Map, r: nat, ino: nat, size': Word, chain: seq<nat>)
    requires Inv(d0, r, m0) && ino < NumInodes(d0, r) && Growing(d0, m0, d, m, r, ino, chain)
    requires Size(d0, r, ino) < size' && Levels(r, size') == Levels(r, Size(d0, r, ino)) + |chain|
    ensures Growth(d, r, m, ino, size', chain)
    ensures Root(d, r, ino) == Root(d0, r, ino) && Size(d, r, ino) == Size(d0, r, ino)
    ensures forall f: Word :: PutInode(d, r, ino, f, size') == PutInode(d0, r, ino, f, size')
    ensures File(d, r, m, ino) == File(d0, r, m0, ino)
    ensures TreeSlots(r, m, ino, Size(d0, r, ino))
  {
    InodeBlockOwner(d, r, m, ino);
    assert FileOk(d, r, m, ino);
    assert File(d, r, m, ino) == Store(d, r, m)[ino];
  }

  lemma GrowCommit(d0: seq<Block>, m0: Map, d: seq<Block>, m: Map, d': seq<Block>, m': Map, r: nat, ino: nat,
          size': Word, chain: seq<nat>)
    requires Inv(d0, r, m0) && ino < NumInodes(d0, r) && Growing(d0, m0, d, m, r, ino, chain)
    requires Size(d0, r, ino) < size' && Levels(r, size') == Levels(r, Size(d0, r, ino)) + |chain|
    requires m' == Adopt(m, ino, Levels(r, Size(d0, r, ino)) + 1, chain)
    requires InodeBlockNo(r, ino) < |d|
    requires d' == d[InodeBlockNo(r, ino) := PutInode(d0, r, ino, TopOf(d, Root(d0, r, ino), chain, |chain|), size')]
    ensures GrownTo(d0, m0, d', m', r, ino, size')
  {
    hide Files, FreeList, Partition, Store, File, Took, Stacked, TookChain, Adopt, LostBlocks, Grown, GrownOwners;
    GrownEnough(d0, m0, d, m, r, ino, size', chain);
    InodeBlockOwner(d, r, m, ino);
    var top := TopOf(d, Root(d0, r, ino), chain, |chain|);
    assert PutInode(d, r, ino, top, size') == PutInode(d0, r, ino, top, size');
    ChainAdopted(|d|, m0, m, m', r, ino, Size(d0, r, ino), chain);
    GrowMap(|d|, m, m', r, ino, Size(d0, r, ino), chain);
    GrowStep(d, m, d', m', r, ino, size', chain);
  }

  lemma LevelsRaised(d0: seq<Block>, m0: Map, d: seq<Block>, m: Map, m': Map, r: nat, ino: nat, size': Word,
          chain: seq<nat>)
    requires Inv(d0, r, m0) && ino < NumInodes(d0, r) && Growing(d0, m0, d, m, r, ino, chain)
    requires Size(d0, r, ino) < size' && Levels(r, size') == Levels(r, Size(d0, r, ino)) + |chain|
    requires m' == Adopt(m, ino, Levels(r, Size(d0, r, ino)) + 1, chain)
    ensures Raised(m0, m', ino, Levels(r, Size(d0, r, ino)), Levels(r, size')) && FreeCount(m') == FreeCount(m)
  {
    hide Files, FreeList, Partition, Store, File, Stacked, TookChain, Adopt, LostBlocks, Grown, GrownOwners;
    GrownEnough(d0, m0, d, m, r, ino, size', chain);
    GrowMap(|d|, m, m', r, ino, Size(d0, r, ino), chain);
    RaisedBy(|d|, m0, m, m', ino, Levels(r, Size(d0, r, ino)), chain);
  }

  lemma ChainLost(n: nat, m0: Map, m: Map, ino: nat, chain: seq<nat>)
    requires LostBlocks(n, m, chain) && TookChain(m0, m, chain)
    ensures Took(m0, m, ino, true)
  {
  }

  lemma ChainAdopted(n: nat, m0: Map, m: Map, m': Map, r: nat, ino: nat, size: nat, chain: seq<nat>)
    requires r >= 2 && LostBlocks(n, m, chain) && TookChain(m0, m, chain) && TreeSlots(r, m, ino, size)
    requires m' == Adopt(m, ino, Levels(r, size) + 1, chain)
    ensures Took(m0, m', ino, false)
  {
    NothingAboveRoot(r, m, ino, size);
    AdoptOwners(n, m, ino, Levels(r, size) + 1, chain);
  }

  // ---- the walk of a write ----

  /** The file's tree, with the in-memory copy of the parent block in place of the one on
      disk, still stands for the files as they were in (d0, m0); and if no block is free,
      nothing is only in memory. */
  ghost predicate WalkState(d0: seq<Block>, m0: Map, d: seq<Block>, m: Map, r: nat, ino: nat, off: nat,
      l: nat, parentNo: nat, parent: Block, index: nat)
    requires Inv(d0, r, m0) && ino < NumInodes(d0, r) && off < Size(d0, r, ino)
  {
    && |d| == |d0| && Core(d, r, m) && parentNo < |d| && |parent| == r && index < r
    && var dv := d[parentNo := parent];
      && SameFiles(d0, m0, dv, m, r, ino)
      && AtParent(dv, r, m, ino, l, off, parentNo, index)
      && (dv == d || (parent == Zeros(r) && m.height > 0))
  }

  ghost predicate SameFiles(d0: seq<Block>, m0: Map, d: seq<Block>, m: Map, r: nat, ino: nat)
    requires Inv(d0, r, m0) && ino < NumInodes(d0, r)
  {
    && |d| == |d0| && Inv(d, r, m) && NumInodeBlocks(d) == NumInodeBlocks(d0) && Size(d, r, ino) == Size(d0, r, ino)
    && Store(d, r, m) == Store(d0, r, m0)
    && Took(m0, m, ino, false)
  }

  /** Block off of file ino has been replaced, using free blocks only. */
  ghost predicate Replaced(d0: seq<Block>, m0: Map, d: seq<Block>, m: Map, r: nat, ino: nat, off: nat, blk: Block)
    requires Inv(d0, r, m0) && ino < NumInodes(d0, r) && off < Size(d0, r, ino)
  {
    && |d| == |d0| && Inv(d, r, m) && NumInodeBlocks(d) == NumInodeBlocks(d0)
    && Store(d, r, m) == Store(d0, r, m0)[ino := File(d0, r, m0, ino)[off := blk]]
    && Took(m0, m, ino, false)
    && Tree(ino, 0, off) in m.at
  }

  lemma WalkStart(d: seq<Block>, m: Map, r: nat, ino: nat, off: nat)
    requires Inv(d, r, m) && ino < NumInodes(d, r) && off < Size(d, r, ino)
    ensures InodeBlockNo(r, ino) < |d|
    ensures WalkState(d, m, d, m, r, ino, off, Levels(r, Size(d, r, ino)), InodeBlockNo(r, ino), d[InodeBlockNo(r, ino)], InodeWord(r, ino))
  {
    InodeBlockOwner(d, r, m, ino);
    assert d[InodeBlockNo(r, ino) := d[InodeBlockNo(r, ino)]] == d;
  }

  lemma WalkHere(d0: seq<Block>, m0: Map, d: seq<Block>, m: Map, r: nat, ino: nat, off: nat, l: nat, parentNo: nat,
          parent: Block, index: nat)
    requires Inv(d0, r, m0) && ino < NumInodes(d0, r) && off < Size(d0, r, ino)
    requires WalkState(d0, m0, d, m, r, ino, off, l, parentNo, parent, index)
    ensures parent[index] != 0 ==> d[parentNo := parent] == d && SameFiles(d0, m0, d, m, r, ino)
    ensures parent[index] != 0 ==> parent[index] < |d| && Tree(ino, l, Up(r, off, l)) in m.at && m.at[Tree(ino, l, Up(r, off, l))] == parent[index]
    ensures m.height == 0 ==> SameFiles(d0, m0, d, m, r, ino)
  {
    ParentHolds(d[parentNo := parent], r, m, ino, l, off, parentNo, index);
  }

  lemma WalkFollow(d0: seq<Block>, m0: Map, d: seq<Block>, m: Map, r: nat, ino: nat, off: nat, l: nat, parentNo: nat,
          parent: Block, index: nat)
    requires Inv(d0, r, m0) && ino < NumInodes(d0, r) && off < Size(d0, r, ino)
    requires WalkState(d0, m0, d, m, r, ino, off, l, parentNo, parent, index)
    requires parent[index] != 0 && l > 0
    ensures parent[index] < |d|
    ensures WalkState(d0, m0, d, m, r, ino, off, l - 1, parent[index], d[parent[index]], Digit(r, off, l - 1))
  {
    WalkHere(d0, m0, d, m, r, ino, off, l, parentNo, parent, index);
    var b := parent[index];
    assert d[b := d[b]] == d;
    ParentBelow(d, r, m, ino, l, off, b);
  }

  // ---- blocks taken on the way down ----

  /** All places above level l on the way to off are occupied, with as many free blocks fewer as
      had been vacant. */
  ghost predicate OnTheWay(r: nat, m0: Map, m: Map, ino: nat, off: nat, l: nat, top: nat)
    requires r > 0
  {
    && Descended(r, m0, m, ino, off, l + 1, top)
    && FreeCount(m) + Holes(r, m0, ino, off, top, top) == FreeCount(m0) + Holes(r, m0, ino, off, top, l)
  }

  lemma WayStart(r: nat, m: Map, ino: nat, off: nat, top: nat)
    requires r > 0
    ensures OnTheWay(r, m, m, ino, off, top, top)
  {
  }

  /** The reference at hand is zero exactly if the place was vacant from the start. */
  lemma WalkPlace(d0: seq<Block>, m0: Map, d: seq<Block>, m: Map, r: nat, ino: nat, off: nat, l: nat, parentNo: nat,
          parent: Block, index: nat)
    requires Inv(d0, r, m0) && ino < NumInodes(d0, r) && off < Size(d0, r, ino)
    requires WalkState(d0, m0, d, m, r, ino, off, l, parentNo, parent, index)
    ensures parent[index] == 0 <==> Tree(ino, l, Up(r, off, l)) !in m.at
  {
    ParentHolds(d[parentNo := parent], r, m, ino, l, off, parentNo, index);
  }

  lemma WayOpen(r: nat, m0: Map, m: Map, ino: nat, off: nat, l: nat, top: nat)
    requires r > 0 && OnTheWay(r, m0, m, ino, off, l, top) && l <= top && Tree(ino, l, Up(r, off, l)) in m.at
    ensures l > 0 ==> OnTheWay(r, m0, m, ino, off, l - 1, top)
    ensures l == 0 ==> Descended(r, m0, m, ino, off, 0, top) && FreeCount(m) + Holes(r, m0, ino, off, top, top) == FreeCount(m0)
  {
    DescendedHere(r, m0, m, ino, off, l, top);
    HolesStep(r, m0, ino, off, top, l);
  }

  lemma WayFilled(d: seq<Block>, r: nat, m0: Map, m: Map, d': seq<Block>, m': Map, ino: nat, off: nat, l: nat,
          top: nat, f: nat)
    requires r > 0 && OnTheWay(r, m0, m, ino, off, l, top) && l <= top && Tree(ino, l, Up(r, off, l)) !in m.at
    requires Core(d, r, m) && Core(d', r, m') && |d'| == |d| && f < |d| && OnFreeList(m.owner[f])
    requires m'.owner == m.owner[f := Tree(ino, l, Up(r, off, l))]
    ensures l > 0 ==> OnTheWay(r, m0, m', ino, off, l - 1, top)
    ensures l == 0 ==> Descended(r, m0, m', ino, off, 0, top) && FreeCount(m') + Holes(r, m0, ino, off, top, top) == FreeCount(m0)
  {
    hide FreeCount, Descended;
    DescendedHere(r, m0, m, ino, off, l, top);
    DescendedMore(|d|, r, m0, m, m', ino, off, f, l, top);
    HolesStep(r, m0, ino, off, top, l);
  }

  lemma WayBlocked(d: seq<Block>, r: nat, m0: Map, m: Map, ino: nat, off: nat, l: nat, top: nat)
    requires r > 0 && OnTheWay(r, m0, m, ino, off, l, top) && l <= top && Tree(ino, l, Up(r, off, l)) !in m.at
    requires Core(d, r, m) && m.height == 0
    ensures Holes(r, m0, ino, off, top, top) > FreeCount(m0)
  {
    FreeIffListed(d, r, m);
    DescendedHere(r, m0, m, ino, off, l, top);
    HolesStep(r, m0, ino, off, top, l);
  }

  lemma FilledSame(d0: seq<Block>, m0: Map, d: seq<Block>, m: Map, d': seq<Block>, m': Map, r: nat, ino: nat,
          off: nat, l: nat, blk: Block)
    requires Inv(d0, r, m0) && ino < NumInodes(d0, r) && off < Size(d0, r, ino)
    requires SameFiles(d0, m0, d, m, r, ino)
    requires FilledWith(d, m, d', m', r, ino, l, off, blk)
    ensures l > 0 ==> SameFiles(d0, m0, d', m', r, ino)
    ensures l == 0 ==> Replaced(d0, m0, d', m', r, ino, off, blk)
  {
    UpZero(r, off);
    TookTwice(m0, m, m', ino);
    assert File(d, r, m, ino) == Store(d, r, m)[ino] == File(d0, r, m0, ino);
  }

  /** A block in use is not the first free-list node. */
  lemma NodeOnTop(d: seq<Block>, r: nat, m: Map, b: nat)
    requires Core(d, r, m) && b < |d| && m.owner[b].Tree?
    ensures Top(d) < |d| && Top(d) != b
  {
    TopIsNode(d, r, m);
    assert m.owner[0] == Super by { assert m.at[Super] == 0; }
  }

  lemma CoreShape(d: seq<Block>, r: nat, m: Map)
    requires Core(d, r, m)
    ensures Shaped(d, r, m) && m.owner[0] == Super
  {
    assert m.at[Super] == 0;
  }

  /** A write inside the file leaves its size. */
  lemma NotExtended(d0: seq<Block>, m0: Map, d: seq<Block>, m: Map, r: nat, ino: nat, off: Word)
    requires Inv(d0, r, m0) && ino < NumInodes(d0, r) && off < Size(d0, r, ino) && SameFiles(d0, m0, d, m, r, ino)
    ensures Store(d, r, m) == Store(d0, r, m0)[ino := Extended(Store(d0, r, m0)[ino], r, off + 1)]
    ensures Took(m0, m, ino, false)
  {
  }

  lemma SlotsIn(d: seq<Block>, r: nat, m: Map, ino: nat)
    requires Inv(d, r, m) && ino < NumInodes(d, r)
    ensures TreeSlots(r, m, ino, Size(d, r, ino))
  {
    assert FileOk(d, r, m, ino);
  }

  lemma SnapshotRead(d: seq<Block>, m: Map, r: nat, ino: nat)
    requires Inv(d, r, m) && ino < NumInodes(d, r)
    ensures File(d, r, m, ino) == Store(d, r, m)[ino] && |File(d, r, m, ino)| == Size(d, r, ino)
    ensures InodeBlockNo(r, ino) < |d| && |d[InodeBlockNo(r, ino)]| == r
  {
    InodeBlockOwner(d, r, m, ino);
  }

  /** Only the superblock is block 0. */
  lemma NotZero(d: seq<Block>, r: nat, m: Map, s: Slot)
    requires Core(d, r, m) && !s.Super? && At(m, s) == 0
    ensures s !in m.at
  {
    assert m.owner[0] == Super by { assert m.at[Super] == 0; }
  }

  lemma TookTwice(m0: Map, m: Map, m': Map, ino: nat)
    requires Took(m0, m, ino, false) && Took(m, m', ino, false)
    ensures Took(m0, m', ino, false)
  {
  }

  lemma WalkFilled(d0: seq<Block>, m0: Map, d: seq<Block>, m: Map, d': seq<Block>, m': Map, r: nat, ino: nat,
          off: nat, l: nat, f: nat)
    requires Inv(d0, r, m0) && ino < NumInodes(d0, r) && off < Size(d0, r, ino)
    requires SameFiles(d0, m0, d, m, r, ino) && l > 0 && l <= Levels(r, Size(d0, r, ino))
    requires f < |d'| == |d| == |d0| && Core(d', r, m')
    requires FilledWith(d, m, d'[f := Zeros(r)], m', r, ino, l, off, Zeros(r))
    requires m'.owner[f] == Tree(ino, l, Up(r, off, l)) && (m'.height == 0 ==> d'[f] == Zeros(r))
    ensures WalkState(d0, m0, d', m', r, ino, off, l - 1, f, Zeros(r), Digit(r, off, l - 1))
  {
    var dv := d'[f := Zeros(r)];
    FilledSame(d0, m0, d, m, dv, m', r, ino, off, l, Zeros(r));
    ParentBelow(dv, r, m', ino, l, off, f);
    if m'.height == 0 { assert dv == d'; }
  }

  lemma WalkEnd(d0: seq<Block>, m0: Map, d: seq<Block>, m: Map, r: nat, ino: nat, off: nat, parentNo: nat,
          parent: Block, index: nat, blk: Block)
    requires Inv(d0, r, m0) && ino < NumInodes(d0, r) && off < Size(d0, r, ino)
    requires WalkState(d0, m0, d, m, r, ino, off, 0, parentNo, parent, index)
    requires parent[index] != 0 && |blk| == r
    ensures parent[index] < |d| && Replaced(d0, m0, d[parent[index] := blk], m, r, ino, off, blk)
  {
    hide Files, FreeList, FixedPart, Took, File, Content;
    WalkHere(d0, m0, d, m, r, ino, off, 0, parentNo, parent, index);
    UpZero(r, off);
    OverwriteStep(d, m, r, ino, off, blk);
    SameFile(d0, m0, d, m, r, ino);
    assert m.owner[parent[index]] == Tree(ino, 0, off);
    CoreShape(d, r, m);
  }

  lemma SameFile(d0: seq<Block>, m0: Map, d: seq<Block>, m: Map, r: nat, ino: nat)
    requires Inv(d0, r, m0) && ino < NumInodes(d0, r) && SameFiles(d0, m0, d, m, r, ino)
    ensures File(d, r, m, ino) == File(d0, r, m0, ino)
  {
    assert File(d, r, m, ino) == Store(d, r, m)[ino] == Store(d0, r, m0)[ino] == File(d0, r, m0, ino);
  }

  /** A growth step and a replacement make up a write past the end. */
  lemma GrownThenReplaced(d0: seq<Block>, m0: Map, d1: seq<Block>, m1: Map, d2: seq<Block>, m2: Map, r: nat,
          ino: nat, off: Word, blk: Block)
    requires Inv(d0, r, m0) && ino < NumInodes(d0, r) && Size(d0, r, ino) <= off && off + 1 < TWO32
    requires GrownTo(d0, m0, d1, m1, r, ino, off + 1)
    requires Replaced(d1, m1, d2, m2, r, ino, off, blk)
    ensures Store(d2, r, m2) == Written(Store(d0, r, m0), r, ino, off, blk)
    ensures Took(m0, m2, ino, false)
  {
    hide Files, FreeList, FixedPart, Partition, Shaped, File, Store, Took, Padded, Extended;
    TookTwice(m0, m1, m2, ino);
    CoreShape(d0, r, m0);
    CoreShape(d1, r, m1);
    CoreShape(d2, r, m2);
    StoreAt(d0, r, m0, ino);
    StoreAt(d1, r, m1, ino);
    ExtendedIs(File(d0, r, m0, ino), r, off + 1);
    Spliced(Store(d0, r, m0), Store(d1, r, m1), Store(d2, r, m2), ino, Extended(File(d0, r, m0, ino), r, off + 1), File(d1, r, m1, ino)[off := blk]);
  }

  lemma ExtendedIs(file: seq<Block>, r: nat, size: nat)
    requires |file| < size
    ensures Extended(file, r, size) == Padded(file, r, size)
  {
  }

  lemma Spliced(s0: seq<seq<Block>>, s1: seq<seq<Block>>, s2: seq<seq<Block>>, i: nat, f1: seq<Block>, f2: seq<Block>)
    requires i < |s0| && s1 == s0[i := f1] && s2 == s1[i := f2]
    ensures s1[i] == f1 && s2 == s0[i := f2]
  {
  }

  lemma StoreAt(d: seq<Block>, r: nat, m: Map, ino: nat)
    requires Inv(d, r, m) && ino < NumInodes(d, r)
    ensures ino < |Store(d, r, m)| && Store(d, r, m)[ino] == File(d, r, m, ino)
    ensures |File(d, r, m, ino)| == Size(d, r, ino)
  {
  }

  lemma GrownThenSame(d0: seq<Block>, m0: Map, d1: seq<Block>, m1: Map, d2: seq<Block>, m2: Map, r: nat, ino: nat,
          off: Word)
    requires Inv(d0, r, m0) && ino < NumInodes(d0, r) && Size(d0, r, ino) <= off && off + 1 < TWO32
    requires GrownTo(d0, m0, d1, m1, r, ino, off + 1)
    requires SameFiles(d1, m1, d2, m2, r, ino)
    ensures Store(d2, r, m2) == Store(d0, r, m0)[ino := Extended(Store(d0, r, m0)[ino], r, off + 1)]
    ensures Took(m0, m2, ino, false)
  {
    TookTwice(m0, m1, m2, ino);
  }

  /** Files that can be freed at all: their size is at most a power of the branching factor
      below 2^32. For others the search for the number of levels does not end. */
  predicate Freeable(k: nat, size: Word)
    requires k >= 1
  {
    size <= Pow(2, k * (31 / k))
  }

  /** A data block that is the root of a one-block file. */
  lemma RootOnly(d: seq<Block>, r: nat, m: Map, ino: nat)
    requires Inv(d, r, m) && ino < NumInodes(d, r) && Size(d, r, ino) > 0
    ensures Root(d, r, ino) < |d| && NumInodeBlocks(d) > 0 && Top(d) < |d|
    ensures Root(d, r, ino) != 0 ==> m.owner[Root(d, r, ino)] == Tree(ino, Levels(r, Size(d, r, ino)), 0)
    ensures Root(d, r, ino) != 0 ==> Top(d) != Root(d, r, ino)
    ensures Intact(d, r, m, ino, Levels(r, Size(d, r, ino)), 0)
    ensures Size(d, r, ino) >= 2 ==> Root(d, r, ino) != 0
    ensures Root(d, r, ino) == 0 ==> SubtreeBlocks(r, m, ino, Levels(r, Size(d, r, ino)), 0) == {}
  {
    assert FileOk(d, r, m, ino);
    InodeInRange(d, r, ino);
    IntactFile(d, r, m, ino);
    CoreShape(d, r, m);
    TopIsNode(d, r, m);
    if Root(d, r, ino) != 0 {
      NodeOnTop(d, r, m, Root(d, r, ino));
    } else {
      NotZero(d, r, m, Tree(ino, 0, 0));
      forall b: nat | b < |d| ensures !InSubtree(r, m.owner[b], ino, 0, 0) {
        if InSubtree(r, m.owner[b], ino, 0, 0) {
          UpZero(r, m.owner[b].idx);
        }
      }
    }
  }

  /** Can the file be emptied without harm? It can unless its root is a hole, which only a
      disk-full write leaves behind, while there are free blocks again. */
  predicate Emptiable(d: seq<Block>, r: nat, ino: nat)
    requires Sized(d, r) && NumInodeBlocks(d) < |d| && ino < NumInodes(d, r)
  {
    Size(d, r, ino) == 0 || Root(d, r, ino) != 0 || Top(d) == 0
  }

  lemma ReleasedNothing(d: seq<Block>, m: Map, r: nat)
    requires Core(d, r, m)
    ensures Released(d, m, d, m, r, {})
  {
  }

  class TreeDisk {
    const below: BlockStore
    const r: nat                     // references per block
    const logRpb: nat                // log2(r)
    ghost var m: Map

    ghost predicate Valid()
      reads this, below
    {
      && 1 <= logRpb < 32 && r == Pow(2, logRpb)
      && Inv(below.blocks, r, m)
    }

    ghost function Contents(): seq<seq<Block>>
      reads this, below
      requires Valid()
    {
      Store(below.blocks, r, m)
    }

    /** Opens the store kept on below; the branching factor is a power of two. */
    constructor (below: BlockStore, r: nat, ghost k: nat, ghost m: Map)
      requires 1 <= k < 32 && r == Pow(2, k) && Inv(below.blocks, r, m)
      ensures Valid() && this.below == below && this.r == r && this.logRpb == k && this.m == m
    {
      var log := LogOf(r, k);
      this.logRpb := log;
      this.below := below;
      this.r := r;
      this.m := m;
    }

    /** Number of tree levels needed to reach leaf x. */
    method DepthOf(x: Word) returns (n: nat)
      requires 1 <= logRpb < 32 && r == Pow(2, logRpb) && r >= 2
      ensures n == Digits(r, x)
    {
      n := 0;
      LogShiftIsUp(x, logRpb, n);
      DigitsExact(r, x, n);
      while LogShiftR(x, n * logRpb) != 0
        invariant n <= Digits(r, x)
        invariant LogShiftR(x, n * logRpb) == 0 <==> n >= Digits(r, x)
        decreases Digits(r, x) - n
      {
        n := n + 1;
        LogShiftIsUp(x, logRpb, n);
        DigitsExact(r, x, n);
      }
    }

    /** Which reference of an indirect block to follow, nlevels above the data. */
    method DigitOf(offset: Word, nlevels: nat) returns (j: nat)
      requires 1 <= logRpb < 32 && r == Pow(2, logRpb)
      ensures r > 0 && j == Digit(r, offset, nlevels)
    {
      LogShiftIsUp(offset, logRpb, nlevels);
      j := LogShiftR(offset, nlevels * logRpb) % r;
    }

    /** Reads the superblock and the block of inode ino; fails if there is no such inode. */
    method GetSnapshot(ino: Word) returns (ok: bool, snap: Snapshot)
      requires Valid()
      ensures fresh(snap)
      ensures ok <==> ino < NumInodes(below.blocks, r) % TWO32
      ensures ok ==> ino < NumInodes(below.blocks, r)
      ensures ok ==> InodeBlockNo(r, ino) < |below.blocks|
      ensures ok ==> snap.superblock == below.blocks[0]
      ensures ok ==> snap.inodeblock == below.blocks[InodeBlockNo(r, ino)]
      ensures ok ==> snap.inodeBlockNo == InodeBlockNo(r, ino) && snap.word == InodeWord(r, ino)
    {
      var superblock := below.Read(0);
      var inodesPerBlock := r / 2;
      if ino >= (superblock[0] * inodesPerBlock) % TWO32 {
        snap := new Snapshot(superblock, superblock, 0, 0);
        return false, snap;
      }
      ModAtMost(superblock[0] * inodesPerBlock, TWO32);
      InodeInRange(below.blocks, r, ino);
      var inodeblock := below.Read(1 + ino / inodesPerBlock);
      snap := new Snapshot(superblock, inodeblock, 1 + ino / inodesPerBlock, 2 * (ino % inodesPerBlock));
      ok := true;
    }

    /** Takes a block off the free list. */
    method AllocBlock(snap: Snapshot) returns (ok: bool, b: Word)
      requires Core(below.blocks, r, m) && snap.superblock == below.blocks[0]
      modifies below, this`m, snap`superblock
      ensures ok <==> old(m.height) > 0
      ensures !ok ==> below.blocks == old(below.blocks) && m == old(m) && snap.superblock == old(snap.superblock)
      ensures ok ==> Top(old(below.blocks)) < |old(below.blocks)| && Alloc(old(below.blocks), r).Got?
      ensures ok ==> b == Alloc(old(below.blocks), r).block && below.blocks == Alloc(old(below.blocks), r).disk
      ensures ok ==> m == AllocMap(old(below.blocks), r, old(m))
      ensures ok ==> AllocStep(old(below.blocks), r, old(m), below.blocks, m, b)
      ensures |below.blocks| > 0 && snap.superblock == below.blocks[0]
    {
      AllocCore(below.blocks, r, m);
      var head := snap.superblock[1];
      if head == 0 {
        return false, 0;
      }
      var node := below.Read(head);
      var i := r - 1;
      while i > 0 && node[i] == 0
        invariant 0 <= i < r
        invariant forall j :: i < j < r ==> node[j] == 0
      {
        i := i - 1;
      }
      assert i == LastUsed(node, r);
      ghost var m' := AllocMap(below.blocks, r, m);
      if i == 0 {
        b := head;
        snap.superblock := Put(snap.superblock, 1, node[0]);
        below.Write(0, snap.superblock);
      } else {
        b := node[i];
        below.Write(head, Put(node, i, 0));
      }
      m := m';
      ok := true;
    }

    /** Number of files the store has room for. */
    method GetNinodes() returns (n: nat)
      requires Valid()
      ensures n == |Contents()| % TWO32
    {
      var superblock := below.Read(0);
      n := (superblock[0] * (r / 2)) % TWO32;
    }

    /** Size of a file in blocks. */
    method GetSize(ino: Word) returns (n: int)
      requires Valid()
      ensures n == if ino < |Contents()| % TWO32 && ino < |Contents()| then |Contents()[ino]| else -1
    {
      var ok, snap := GetSnapshot(ino);
      if !ok {
        return -1;
      }
      n := snap.inodeblock[snap.word + 1];
    }

    /** Reads a block of a file; a hole reads as zeros. */
    method Read(ino: Word, offset: Word) returns (out: Outcome, block: Block)
      requires Valid()
      ensures out.Done? || out.Refused?
      ensures out.Done? <==> ino < |Contents()| % TWO32 && ino < |Contents()| && offset < |Contents()[ino]|
      ensures out.Done? ==> block == Contents()[ino][offset]
    {
      block := Zeros(r);
      var ok, snap := GetSnapshot(ino);
      if !ok {
        return Refused, block;
      }
      var nblocks := snap.inodeblock[snap.word + 1];
      if offset >= nblocks {
        return Refused, block;
      }
      var nlevels: nat := DepthOf(nblocks - 1);
      ghost var d := below.blocks;
      assert FileOk(d, r, m, ino);
      var b: nat := snap.inodeblock[snap.word];
      TopIndex(r, offset, nblocks);
      while true
        invariant nlevels <= Levels(r, nblocks)
        invariant b == At(m, Tree(ino, nlevels, Up(r, offset, nlevels)))
        decreases nlevels
      {
        ReadStep(d, r, m, ino, nlevels, offset, b);
        if b == 0 {
          return Done, Zeros(r);
        }
        block := below.Read(b);
        if nlevels == 0 {
          return Done, block;
        }
        nlevels := nlevels - 1;
        var index := DigitOf(offset, nlevels);
        b := block[index];
      }
    }

    /** Allocates the block that parent[index] should refer to, and records it there.
        blk is what the new block is about to be filled with. */
    method FillHole(snap: Snapshot, ino: Word, offset: Word, l: nat, parentNo: nat, parent: Block, index: nat,
            ghost blk: Block)
      returns (ok: bool, f: Word)
      requires parentNo < |below.blocks| && |parent| == r && Core(below.blocks, r, m)
      requires snap.superblock == below.blocks[0]
      requires Inv(below.blocks[parentNo := parent], r, m)
      requires AtParent(below.blocks[parentNo := parent], r, m, ino, l, offset, parentNo, index)
      requires index < r && parent[index] == 0
      requires |blk| == r && (l > 0 ==> blk == Zeros(r))
      modifies below, this`m, snap`superblock
      ensures |below.blocks| > 0 && snap.superblock == below.blocks[0]
      ensures ok <==> old(m.height) > 0
      ensures !ok ==> below.blocks == old(below.blocks) && m == old(m)
      ensures ok ==> f < |below.blocks| == |old(below.blocks)| && Core(below.blocks, r, m)
      ensures ok ==> FilledWith(old(below.blocks)[parentNo := parent], old(m), below.blocks[f := blk], m, r, ino, l, offset, blk)
      ensures ok ==> f < |old(m).owner| && OnFreeList(old(m).owner[f]) && m.owner == old(m).owner[f := Tree(ino, l, Up(r, offset, l))]
      ensures ok ==> f < |m.owner| && m.owner[f] == Tree(ino, l, Up(r, offset, l))
      ensures ok && m.height == 0 ==> below.blocks[f] == Zeros(r)
    {
      hide Files, FreeList, Store, File, Took, AllocMap, Alloc, AtParent;
      ghost var d0, m0 := below.blocks, m;
      ghost var dv := d0[parentNo := parent];
      ParentHolds(dv, r, m, ino, l, offset, parentNo, index);
      AllocElsewhere(d0, r, m, parentNo, parent);
      ok, f := AllocBlock(snap);
      if !ok {
        return;
      }
      ghost var d1, m1 := below.blocks, m;
      AllocKeepsFiles(dv, r, m0);
      below.Write(parentNo, Put(parent, index, f));
      FillStep(d0, m0, d1, m1, r, ino, l, offset, parentNo, parent, index, f, blk);
      m := LinkMap(m1, f, ino, l, Up(r, offset, l));
    }

    /** Puts one more indirect block on top of the tree of a file that is growing. */
    method AddLevel(snap: Snapshot, ino: Word, size': Word, ghost d0: seq<Block>, ghost m0: Map, ghost chain: seq<nat>)
      returns (ok: bool, f: Word)
      requires Inv(d0, r, m0) && ino < NumInodes(d0, r)
      requires Growing(d0, m0, below.blocks, m, r, ino, chain)
      requires snap.superblock == below.blocks[0] && snap.word == InodeWord(r, ino)
      requires snap.inodeblock == PutInode(d0, r, ino, TopOf(below.blocks, Root(d0, r, ino), chain, |chain|), size')
      modifies below, this`m, snap`superblock, snap`inodeblock
      ensures |below.blocks| == |d0| && snap.superblock == below.blocks[0]
      ensures ok ==> Growing(d0, m0, below.blocks, m, r, ino, chain + [f])
      ensures ok ==> TopOf(below.blocks, Root(d0, r, ino), chain + [f], |chain| + 1) == f
      ensures ok ==> snap.inodeblock == PutInode(d0, r, ino, f, size')
      ensures ok ==> FreeCount(m) + 1 == FreeCount(old(m))
      ensures !ok ==> below.blocks == old(below.blocks) && m == old(m) && m.height == 0
    {
      hide Files, FreeList, LostBlocks, Stacked, TookChain, Store, File;
      ghost var d, md := below.blocks, m;
      ghost var top := TopOf(d, Root(d0, r, ino), chain, |chain|);
      ok, f := AllocBlock(snap);
      if !ok {
        return;
      }
      OneFewer(md, m, f, Lost(f));
      InodePut(d0, r, m0, ino, top, size');
      var tib := Put(Zeros(r), 0, snap.inodeblock[snap.word]);
      snap.inodeblock := Put(snap.inodeblock, snap.word, f);
      AllocKeepsFiles(d, r, md);
      GrowOne(d0, m0, d, md, below.blocks, m, r, ino, chain, f);
      InodeBlockOwner(d, r, md, ino);
      below.Write(f, tib);
    }

    /** Records in the inode that file ino has grown to size', after adding the indirect
        levels this takes. If there are fewer free blocks, the file is left as it was, and they
        are lost. */
    method GrowLevels(snap: Snapshot, ino: Word, size': Word, nlevels: nat, nlevelsAfter: nat) returns (ok: bool)
      requires Inv(below.blocks, r, m) && ino < NumInodes(below.blocks, r)
      requires Size(below.blocks, r, ino) < size'
      requires nlevels == Levels(r, Size(below.blocks, r, ino)) && nlevelsAfter == Levels(r, size')
      requires snap.superblock == below.blocks[0] && snap.word == InodeWord(r, ino)
      requires snap.inodeBlockNo == InodeBlockNo(r, ino) < |below.blocks|
      requires snap.inodeblock == Put(below.blocks[InodeBlockNo(r, ino)], InodeWord(r, ino) + 1, size')
      modifies below, this`m, snap`superblock, snap`inodeblock
      ensures |below.blocks| == |old(below.blocks)| && snap.superblock == below.blocks[0]
      ensures ok <==> nlevelsAfter - nlevels <= FreeCount(old(m))
      ensures ok ==> FreeCount(m) + (nlevelsAfter - nlevels) == FreeCount(old(m)) && Raised(old(m), m, ino, nlevels, nlevelsAfter)
      ensures ok ==> GrownTo(old(below.blocks), old(m), below.blocks, m, r, ino, size')
      ensures ok ==> InodeBlockNo(r, ino) < |below.blocks| && snap.inodeblock == below.blocks[InodeBlockNo(r, ino)]
      ensures !ok ==> m.height == 0 && NotGrown(old(below.blocks), old(m), below.blocks, m, r, ino)
    {
      hide Files, FreeList, Partition, LostBlocks, Stacked, TookChain, Took, Adopt, Store, File;
      ghost var d0, m0 := below.blocks, m;
      ghost var root := Root(d0, r, ino);
      ghost var chain: seq<nat> := [];
      GrowingStart(d0, m0, r, ino);
      DigitsGrow(r, Size(d0, r, ino), size');
      InodePut(d0, r, m, ino, root, size');
      var level := nlevels;
      while level < nlevelsAfter
        invariant level == nlevels + |chain| <= nlevelsAfter
        invariant Growing(d0, m0, below.blocks, m, r, ino, chain)
        invariant |below.blocks| == |d0| && snap.superblock == below.blocks[0]
        invariant FreeCount(m) + |chain| == FreeCount(m0)
        invariant snap.inodeblock == PutInode(d0, r, ino, TopOf(below.blocks, root, chain, |chain|), size')
      {
        var done, indir := AddLevel(snap, ino, size', d0, m0, chain);
        if !done {
          ChainLost(|d0|, m0, m, ino, chain);
          FreeIffListed(below.blocks, r, m);
          return false;
        }
        chain := chain + [indir];
        level := level + 1;
      }
      ghost var d, md := below.blocks, m;
      below.Write(snap.inodeBlockNo, snap.inodeblock);
      m := Adopt(md, ino, nlevels + 1, chain);
      GrowCommit(d0, m0, d, md, below.blocks, m, r, ino, size', chain);
      LevelsRaised(d0, m0, d, md, m, r, ino, size', chain);
      ok := true;
    }

    /** Walks down to block offset of file ino, filling holes on the way, and writes the block;
        fails exactly if there are more holes than free blocks. */
    method WriteBlock(snap: Snapshot, ino: Word, offset: Word, nlevels: nat, block: Block) returns (ok: bool)
      requires Valid() && ino < NumInodes(below.blocks, r) && offset < Size(below.blocks, r, ino) && |block| == r
      requires nlevels == Levels(r, Size(below.blocks, r, ino))
      requires snap.superblock == below.blocks[0]
      requires snap.inodeBlockNo == InodeBlockNo(r, ino) < |below.blocks| && snap.word == InodeWord(r, ino)
      requires snap.inodeblock == below.blocks[InodeBlockNo(r, ino)]
      modifies below, this`m, snap`superblock
      ensures ok <==> Holes(r, old(m), ino, offset, nlevels, nlevels) <= FreeCount(old(m))
      ensures ok ==> FreeCount(m) + Holes(r, old(m), ino, offset, nlevels, nlevels) == FreeCount(old(m))
      ensures ok ==> Descended(r, old(m), m, ino, offset, 0, nlevels)
      ensures ok ==> Replaced(old(below.blocks), old(m), below.blocks, m, r, ino, offset, block)
      ensures !ok ==> m.height == 0 && SameFiles(old(below.blocks), old(m), below.blocks, m, r, ino)
    {
      hide Files, FreeList, Partition, Store, File, Took, Holes, Descended, FreeCount, OnTheWay, Replaced,
           FilledWith, AtParent;
      ghost var d0, m0 := below.blocks, m;
      WalkStart(d0, m0, r, ino, offset);
      WayStart(r, m0, ino, offset, nlevels);
      var l := nlevels;
      var parentNo, parent, index := snap.inodeBlockNo, snap.inodeblock, snap.word;
      while l > 0
        invariant 0 <= l <= nlevels
        invariant WalkState(d0, m0, below.blocks, m, r, ino, offset, l, parentNo, parent, index)
        invariant snap.superblock == below.blocks[0]
        invariant OnTheWay(r, m0, m, ino, offset, l, nlevels)
      {
        ghost var d, md := below.blocks, m;
        WalkPlace(d0, m0, d, m, r, ino, offset, l, parentNo, parent, index);
        var b := parent[index];
        var next: Block;
        if b == 0 {
          var got, f := FillHole(snap, ino, offset, l, parentNo, parent, index, Zeros(r));
          if !got {
            WalkHere(d0, m0, d, m, r, ino, offset, l, parentNo, parent, index);
            WayBlocked(d, r, m0, m, ino, offset, l, nlevels);
            return false;
          }
          WalkFilled(d0, m0, d[parentNo := parent], md, below.blocks, m, r, ino, offset, l, f);
          WayFilled(d, r, m0, md, below.blocks, m, ino, offset, l, nlevels, f);
          b := f;
          next := Zeros(r);
        } else {
          WayOpen(r, m0, m, ino, offset, l, nlevels);
          WalkFollow(d0, m0, d, m, r, ino, offset, l, parentNo, parent, index);
          next := below.Read(b);
        }
        l := l - 1;
        var j := DigitOf(offset, l);
        parentNo, parent, index := b, next, j;
      }
      ghost var d, md := below.blocks, m;
      WalkPlace(d0, m0, d, m, r, ino, offset, 0, parentNo, parent, index);
      var b := parent[index];
      if b == 0 {
        var got, f := FillHole(snap, ino, offset, 0, parentNo, parent, index, block);
        if !got {
          WalkHere(d0, m0, d, m, r, ino, offset, l, parentNo, parent, index);
          WayBlocked(d, r, m0, m, ino, offset, 0, nlevels);
          return false;
        }
        WayFilled(d, r, m0, md, below.blocks, m, ino, offset, 0, nlevels, f);
        below.Write(f, block);
        FilledSame(d0, m0, d[parentNo := parent], md, below.blocks, m, r, ino, offset, 0, block);
      } else {
        WayOpen(r, m0, m, ino, offset, 0, nlevels);
        WalkEnd(d0, m0, d, m, r, ino, offset, parentNo, parent, index, block);
        below.Write(b, block);
      }
      ok := true;
    }

    /** Writes a block of a file, growing the file with holes as needed. This fails exactly if more
        blocks are needed than free; then no file has lost or changed a block, and at most those
        blocks are lost that were to be new levels. */
    method Write(ino: Word, offset: Word, block: Block) returns (out: Outcome)
      requires Valid() && |block| == r && offset + 1 < TWO32
      modifies below, this`m
      ensures Valid() && |below.blocks| == |old(below.blocks)|
      ensures out.Refused? <==> !(ino < |old(Contents())| % TWO32)
      ensures out.Refused? ==> below.blocks == old(below.blocks) && m == old(m)
      ensures !out.Refused? ==> ino < |old(Contents())|
      ensures !out.Refused? ==>
        (out.Panicked? <==> Needed(r, old(m), ino, |old(Contents())[ino]|, offset) > FreeCount(old(m)))
      ensures out.Done? ==> Contents() == Written(old(Contents()), r, ino, offset, block) && Took(old(m), m, ino, false)
      ensures out.Done? ==> FreeCount(m) + Needed(r, old(m), ino, |old(Contents())[ino]|, offset) == FreeCount(old(m))
      ensures out.Done? ==> Reached(r, old(m), m, ino, |old(Contents())[ino]|, offset)
      ensures out.Panicked? ==> m.height == 0 && FreeCount(m) == 0
      ensures out.Panicked? ==>
        if FreeCount(old(m)) < NewLevels(r, |old(Contents())[ino]|, offset) then Contents() == old(Contents()) && Took(old(m), m, ino, true)
        else Contents() == old(Contents())[ino := Extended(old(Contents())[ino], r, offset + 1)] && Took(old(m), m, ino, false)
    {
      hide Files, FreeList, Partition, Store, File, Took, FreeCount, Holes, Descended, Raised, Reached;
      ghost var d0, m0 := below.blocks, m;
      var ok, snap := GetSnapshot(ino);
      if !ok {
        return Refused;
      }
      SnapshotRead(d0, m0, r, ino);
      var nblocks := snap.inodeblock[snap.word + 1];
      var nlevels := 0;
      if nblocks > 0 {
        nlevels := DepthOf(nblocks - 1);
      }
      if offset >= nblocks {
        snap.inodeblock := Put(snap.inodeblock, snap.word + 1, offset + 1);
        var nlevelsAfter := DepthOf(offset);
        DepthGrows(r, nblocks, offset);
        ok := GrowLevels(snap, ino, offset + 1, nlevels, nlevelsAfter);
        if !ok {
          FreeIffListed(below.blocks, r, m);
          return Panicked;
        }
        ghost var d1, m1 := below.blocks, m;
        SlotsIn(d0, r, m0, ino);
        HolesRaised(r, m0, m1, ino, nblocks, offset);
        ok := WriteBlock(snap, ino, offset, nlevelsAfter, block);
        if !ok {
          FreeIffListed(below.blocks, r, m);
          GrownThenSame(d0, m0, d1, m1, below.blocks, m, r, ino, offset);
          return Panicked;
        }
        ReachedBy(r, m0, m1, m, ino, nblocks, offset);
        GrownThenReplaced(d0, m0, d1, m1, below.blocks, m, r, ino, offset, block);
      } else {
        ok := WriteBlock(snap, ino, offset, nlevels, block);
        if !ok {
          FreeIffListed(below.blocks, r, m);
          NotExtended(d0, m0, below.blocks, m, r, ino, offset);
          return Panicked;
        }
        ReachedInside(r, m0, m, ino, nblocks, offset);
      }
      out := Done;
    }

    /** Zeroes a block and puts it on the free list. */
    method FreeBlock(snap: Snapshot, target: nat)
      requires Sized(below.blocks, r) && target < |below.blocks| && Top(below.blocks) < |below.blocks|
      requires target == 0 || Top(below.blocks) != target
      requires snap.superblock == below.blocks[0]
      modifies below, snap`superblock
      ensures below.blocks == Free(old(below.blocks), r, target)
      ensures target > 0 ==> |below.blocks| > 0 && snap.superblock == below.blocks[0]
    {
      ghost var d0 := below.blocks;
      below.Write(target, Zeros(r));
      var b := snap.superblock[1];
      if b == 0 {
        snap.superblock := Put(snap.superblock, 1, target);
        below.Write(0, snap.superblock);
        return;
      }
      var node := below.Read(b);
      var i := 1;
      while i < r && node[i] != 0
        invariant 1 <= i <= r
        invariant forall j :: 1 <= j < i ==> node[j] != 0
      {
        i := i + 1;
      }
      assert i == FirstEmpty(node, 1);
      if i != r {
        below.Write(b, Put(node, i, target));
      } else {
        snap.superblock := Put(snap.superblock, 1, target);
        below.Write(0, snap.superblock);
        below.Write(target, Put(Zeros(r), 0, b));
      }
    }

    /** The same for a block in use: the disk stays in order. */
    method ReleaseBlock(snap: Snapshot, target: nat)
      requires Core(below.blocks, r, m) && target < |below.blocks| && m.owner[target].Tree?
      requires snap.superblock == below.blocks[0]
      modifies below, this`m, snap`superblock
      ensures |below.blocks| > 0 && snap.superblock == below.blocks[0]
      ensures Released(old(below.blocks), old(m), below.blocks, m, r, {target})
    {
      ghost var d0, m0 := below.blocks, m;
      FreeCore(d0, r, m0, target);
      NodeOnTop(d0, r, m0, target);
      FreeBlock(snap, target);
      m := FreeMap(d0, r, m0, target);
      ReleasedOne(d0, m0, below.blocks, m, r, target);
    }

    /** Frees the tree below (and including) block b, curLevel levels down from the root. */
    method RecursiveFree(snap: Snapshot, level: nat, curLevel: nat, b: nat, ghost ino: nat, ghost idx: nat)
      requires r >= 2 && curLevel <= level && Core(below.blocks, r, m)
      requires snap.superblock == below.blocks[0]
      requires b < |below.blocks| && m.owner[b] == Tree(ino, level - curLevel, idx)
      requires Intact(below.blocks, r, m, ino, level - curLevel, idx)
      modifies below, this`m, snap`superblock
      ensures Released(old(below.blocks), old(m), below.blocks, m, r, SubtreeBlocks(r, old(m), ino, level - curLevel, idx))
      ensures |below.blocks| > 0 && snap.superblock == below.blocks[0]
      decreases level - curLevel
    {
      hide Intact, SubtreeBlocks, KidsBlocks, FreeList, FixedPart;
      ghost var d0, m0 := below.blocks, m;
      ghost var l := level - curLevel;
      CoreShape(d0, r, m0);
      if level == curLevel {
        ReleaseBlock(snap, b);
        LeafSubtree(|d0|, r, m0, ino, idx, b);
        return;
      }
      var indir := below.Read(b);
      TopRefs(d0, r, m0, ino, l, idx, b);
      NoKidsYet(r, m0, ino, l, idx);
      var i := 0;
      while i < r
        invariant i <= r
        invariant Released(d0, m0, below.blocks, m, r, KidsBlocks(r, m0, ino, l, idx, i))
        invariant |below.blocks| == |d0| && snap.superblock == below.blocks[0]
      {
        KidsGrow(r, m0, ino, l, idx, i);
        if indir[i] != 0 {
          ghost var d1, m1 := below.blocks, m;
          StillIntact(d0, m0, d1, m1, r, KidsBlocks(r, m0, ino, l, idx, i), ino, l, idx, i);
          RecursiveFree(snap, level, curLevel + 1, indir[i], ino, Kid(r, idx, i));
          ReleasedMore(d0, m0, d1, m1, below.blocks, m, r, KidsBlocks(r, m0, ino, l, idx, i), SubtreeBlocks(r, m0, ino, l - 1, Kid(r, idx, i)));
        } else {
          NotZero(d0, r, m0, Tree(ino, l - 1, Kid(r, idx, i)));
          VacantKid(d0, r, m0, ino, l, idx, i);
        }
        i := i + 1;
      }
      WholeSubtree(|d0|, r, m0, ino, l, idx, b);
      ghost var d1, m1 := below.blocks, m;
      ReleaseBlock(snap, b);
      ReleasedMore(d0, m0, d1, m1, below.blocks, m, r, KidsBlocks(r, m0, ino, l, idx, r), {b});
    }

    /** Number of tree levels of a file with an indirect root, by comparing capacities. */
    method LevelsBySearch(nblocks: Word) returns (level: nat)
      requires 1 <= logRpb < 32 && r == Pow(2, logRpb) && r >= 2
      requires nblocks >= 2 && Freeable(logRpb, nblocks)
      ensures level == Levels(r, nblocks)
    {
      level := 1;
      FirstCapacity(logRpb);
      var maxCapacity: Word := r;
      while maxCapacity < nblocks
        invariant level >= 1 && logRpb * level < 32
        invariant maxCapacity == Capacity(r, level) == Pow(r, level)
        invariant level > 1 ==> Pow(r, level - 1) < nblocks
        decreases 32 - logRpb * level
      {
        CapacityStep(logRpb, nblocks, level);
        level := level + 1;
        maxCapacity := (maxCapacity * r) % TWO32;
      }
      CapacityLevels(r, nblocks, level);
    }

    /** Frees all blocks of a nonempty file. With a hole for a root, and a free list that is
        not empty, this wipes the superblock instead. */
    method FreeFile(snap: Snapshot, ghost ino: nat)
      requires Valid() && ino < NumInodes(below.blocks, r) && Size(below.blocks, r, ino) > 0
      requires Freeable(logRpb, Size(below.blocks, r, ino))
      requires snap.superblock == below.blocks[0]
      requires |snap.inodeblock| == r && snap.word == InodeWord(r, ino)
      requires snap.inodeblock[snap.word] == Root(below.blocks, r, ino)
      requires snap.inodeblock[snap.word + 1] == Size(below.blocks, r, ino)
      modifies below, this`m, snap`superblock
      ensures |below.blocks| == |old(below.blocks)| && Sized(below.blocks, r)
      ensures old(Root(below.blocks, r, ino) != 0 || Top(below.blocks) == 0) ==>
        Released(old(below.blocks), old(m), below.blocks, m, r, SubtreeBlocks(r, old(m), ino, old(Levels(r, Size(below.blocks, r, ino))), 0))
      ensures old(Root(below.blocks, r, ino) == 0 && Top(below.blocks) != 0) ==>
        NumInodeBlocks(below.blocks) != old(NumInodeBlocks(below.blocks))
    {
      hide Files, FreeList, Intact, SubtreeBlocks;
      ghost var d0, m0 := below.blocks, m;
      var nblocks, root := snap.inodeblock[snap.word + 1], snap.inodeblock[snap.word];
      RootOnly(d0, r, m0, ino);
      CoreShape(d0, r, m0);
      if nblocks == 1 {
        FreeBlock(snap, root);
        if root == 0 {
          FreeHole(d0, r, m0);
          if Top(d0) == 0 { ReleasedNothing(d0, m0, r); }
        } else {
          FreeCore(d0, r, m0, root);
          m := FreeMap(d0, r, m0, root);
          ReleasedOne(d0, m0, below.blocks, m, r, root);
          LeafSubtree(|d0|, r, m0, ino, 0, root);
        }
        return;
      }
      var level := LevelsBySearch(nblocks);
      RecursiveFree(snap, level, 0, root, ino, 0);
    }

    /** Empties a file; any other change of size is refused. Returns the old size. */
    method SetSize(ino: Word, nblocks: Word) returns (result: int)
      requires Valid() && ino < NumInodes(below.blocks, r) % TWO32 && ino < NumInodes(below.blocks, r)
      requires nblocks == 0 ==> Freeable(logRpb, Size(below.blocks, r, ino))
      modifies below, this`m
      ensures nblocks != 0 || nblocks == |old(Contents())[ino]| ==> below.blocks == old(below.blocks) && m == old(m)
      ensures result == if nblocks == 0 || nblocks == |old(Contents())[ino]| then |old(Contents())[ino]| else -1
      ensures nblocks == 0 && Emptiable(old(below.blocks), r, ino) ==>
        && Valid() && |below.blocks| == |old(below.blocks)|
        && Contents() == old(Contents())[ino := []] && Returned(old(m), m, ino)
      ensures nblocks == 0 && !Emptiable(old(below.blocks), r, ino) ==>
        && |below.blocks| == |old(below.blocks)| && |below.blocks[0]| >= 2
        && NumInodeBlocks(below.blocks) != old(NumInodeBlocks(below.blocks))
    {
      hide Files, FreeList, Intact, SubtreeBlocks, Returned, Released;
      ghost var d0, m0 := below.blocks, m;
      var ok, snap := GetSnapshot(ino);
      SnapshotRead(d0, m0, r, ino);
      var oldSize := snap.inodeblock[snap.word + 1];
      if nblocks == oldSize {
        if oldSize == 0 { NothingToReturn(d0, r, m0, ino); }
        return nblocks;
      }
      if nblocks > 0 {
        return -1;
      }
      FreeFile(snap, ino);
      snap.inodeblock := Put(Put(snap.inodeblock, snap.word + 1, 0), snap.word, 0);
      ghost var d1 := below.blocks;
      below.Write(snap.inodeBlockNo, snap.inodeblock);
      if Emptiable(d0, r, ino) {
        ClearedInode(d0, m0, d1, m, r, ino, SubtreeBlocks(r, m0, ino, Levels(r, oldSize), 0));
        FileEmptied(d0, m0, d1, m, below.blocks, r, ino);
      }
      result := oldSize;
    }
  }

  /** log2 of a power of two, by counting shifts. */
  method LogOf(r: nat, ghost k: nat) returns (log: nat)
    requires 1 <= k < 32 && r == Pow(2, k)
    ensures log == k
  {
    PowerFits(k);
    var ones: Word := r - 1;
    log := 1;
    ShiftOfOnes(ones, k, log);
    while LogShiftR(ones, log) != 0
      invariant 1 <= log <= k
      invariant LogShiftR(ones, log) == 0 <==> log >= k
      decreases k - log
    {
      log := log + 1;
      ShiftOfOnes(ones, k, log);
    }
  }

  lemma PowerFits(k: nat)
    requires k < 32
    ensures 0 < Pow(2, k) < TWO32
  {
    PowPositive(2, k);
    Pow2Of32();
    PowMonotone(2, k + 1, 32);
  }

  lemma ShiftOfOnes(ones: Word, k: nat, log: nat)
    requires 1 <= k < 32 && ones + 1 == Pow(2, k)
    ensures LogShiftR(ones, log) == 0 <==> log >= k
  {
    PowPositive(2, log);
    if log >= k {
      PowMonotone(2, k, log);
      DivSmall(ones, Pow(2, log));
    } else {
      PowMonotone(2, log + 1, k);
      DivMonotone(Pow(2, log), ones, Pow(2, log));
      QuotientUnique(Pow(2, log), Pow(2, log), 1, 0);
    }
  }

  lemma ModAtMost(x: nat, m: nat)
    requires m > 0
    ensures x % m <= x
  {
    DivAtMost(x, m);
    assert x == m * (x / m) + x % m;
    assert m * (x / m) >= 0;
  }
}
