/** How a store gets to the state in which emptying a file wipes the superblock. */
module TreeWipes {
  import opened Radix
  import opened Layout
  import opened FreeLists
  import opened TreeSteps
  import opened TreeSpace
  import opened TreeGrowth
  import opened TreeLevels
  import opened TreeFree
  import opened TreeDisks
  import opened TreeCreate
  import opened TreeRuns

  ghost predicate OwnsNone(m: Map, ino: nat) {
    forall b :: 0 <= b < |m.owner| ==> !InFile(m.owner[b], ino)
  }

  /** An empty file needs one block more for its first block. */
  lemma FirstBlockNeeds(d: seq<Block>, r: nat, m: Map, ino: nat)
    requires Inv(d, r, m) && ino < NumInodes(d, r) && Size(d, r, ino) == 0
    ensures Needed(r, m, ino, 0, 0) == 1 && NewLevels(r, 0, 0) == 0 && OwnsNone(m, ino)
  {
    hide FreeList, FixedPart;
    SlotsIn(d, r, m, ino);
    EmptyHasNoSlots(r, m, ino);
    forall b | 0 <= b < |m.owner| ensures !InFile(m.owner[b], ino) {
      assert m.owner[b] in m.at;
    }
  }

  /** A file that owns nothing has a hole for a root. */
  lemma HoleRoot(d: seq<Block>, r: nat, m: Map, ino: nat)
    requires Inv(d, r, m) && ino < NumInodes(d, r) && Size(d, r, ino) > 0 && OwnsNone(m, ino)
    ensures Root(d, r, ino) == 0
  {
    RootedIffOwns(d, r, m, ino);
  }

  /** A write that takes no block leaves every block with its owner. */
  lemma NoneTaken(m: Map, m': Map, ino: nat)
    requires FreeCount(m) == 0 && Took(m, m', ino, false)
    ensures m'.owner == m.owner
  {
    forall b: nat | b < |m.owner| ensures m'.owner[b] == m.owner[b] {
      assert b !in FreeBlocks(m);
    }
  }

  lemma StillRoot(d: seq<Block>, m: Map, d': seq<Block>, m': Map, r: nat, y: nat)
    requires Inv(d, r, m) && Inv(d', r, m') && |d'| == |d| && m'.owner == m.owner
    requires y < NumInodes(d, r) && y < NumInodes(d', r) && Size(d', r, y) == Size(d, r, y) > 0
    requires Root(d, r, y) != 0
    ensures Root(d', r, y) != 0
  {
    hide Inv, Size, Root;
    RootedIffOwns(d, r, m, y);
    var b :| 0 <= b < |d| && InSome(m, b, y);
    assert InSome(m', b, y);
    RootedIffOwns(d', r, m', y);
  }

  /** Emptying a file that has a block leaves free blocks, and takes none from another. */
  lemma SomeFreed(d: seq<Block>, m: Map, d': seq<Block>, m': Map, r: nat, x: nat, y: nat)
    requires Inv(d, r, m) && Inv(d', r, m') && |d'| == |d| && y < NumInodes(d, r)
    requires Size(d, r, y) > 0 && Root(d, r, y) != 0 && Returned(m, m', y)
    requires OwnsNone(m, x)
    ensures Top(d') != 0 && OwnsNone(m', x)
  {
    hide Files, FreeList, FixedPart, Partition, Size, Root;
    RootedIffOwns(d, r, m, y);
    var b: nat :| b < |d| && InSome(m, b, y);
    CoreShape(d, r, m);
    assert b in FreeBlocks(m');
    FreeIffListed(d', r, m');
    TopIsNode(d', r, m');
  }

  lemma SameInodeBlocks(d: seq<Block>, d': seq<Block>, r: nat)
    requires Sized(d, r) && Sized(d', r) && NumInodes(d, r) == NumInodes(d', r)
    ensures NumInodeBlocks(d) == NumInodeBlocks(d')
  {
    assert r / 2 >= 1;
  }

  /** On a full disk, writing to an empty file x fails and leaves x with a hole for a root. Emptying
      any other file y then gives blocks back, after which x cannot be emptied: trying to do so
      wipes the superblock. */
  method WipeFull(fs: TreeDisk, x: Word, y: Word, blk: Block) returns (out: Outcome)
    requires fs.Valid() && FreeCount(fs.m) == 0 && |fs.Contents()| < TWO32 && |blk| == fs.r
    requires x != y && x < |fs.Contents()| && fs.Contents()[x] == []
    requires y < |fs.Contents()| && fs.Contents()[y] != [] && Freeable(fs.logRpb, |fs.Contents()[y]|)
    requires Root(fs.below.blocks, fs.r, y) != 0
    modifies fs, fs.below
    ensures out.Panicked? && fs.Valid() && |fs.below.blocks| == |old(fs.below.blocks)|
    ensures fs.Contents() == old(fs.Contents())[x := [Zeros(fs.r)]][y := []]
    ensures NumInodeBlocks(fs.below.blocks) == old(NumInodeBlocks(fs.below.blocks))
    ensures x < NumInodes(fs.below.blocks, fs.r) && !Emptiable(fs.below.blocks, fs.r, x)
  {
    hide Files, FreeList, FixedPart, Partition, Store, File, Size, Root, Took, Returned, FreeCount, Needed,
         NewLevels, Extended, Freeable, OwnsNone;
    ghost var d0, m0 := fs.below.blocks, fs.m;
    InvSized(d0, fs.r, m0);
    InodesMod(|fs.Contents()|);
    StoreSize(d0, fs.r, m0);
    StoreAt(d0, fs.r, m0, x);
    StoreAt(d0, fs.r, m0, y);
    FirstBlockNeeds(d0, fs.r, m0, x);
    out := fs.Write(x, 0, blk);
    ghost var d1, m1 := fs.below.blocks, fs.m;
    InvSized(d1, fs.r, m1);
    StoreSize(d1, fs.r, m1);
    StoreAt(d1, fs.r, m1, x);
    StoreAt(d1, fs.r, m1, y);
    NoneTaken(m0, m1, x);
    OneZero(fs.r);
    StillRoot(d0, m0, d1, m1, fs.r, y);
    SameInodeBlocks(d0, d1, fs.r);
    var _ := fs.SetSize(y, 0);
    ghost var d2, m2 := fs.below.blocks, fs.m;
    InvSized(d2, fs.r, m2);
    StoreSize(d2, fs.r, m2);
    StoreAt(d2, fs.r, m2, x);
    SameOwners(m0, m1, x);
    SomeFreed(d1, m1, d2, m2, fs.r, x, y);
    HoleRoot(d2, fs.r, m2, x);
    SameInodeBlocks(d1, d2, fs.r);
  }

  lemma SameOwners(m: Map, m': Map, ino: nat)
    requires m'.owner == m.owner && OwnsNone(m, ino)
    ensures OwnsNone(m', ino)
  {
  }

  lemma OneZero(r: nat)
    ensures Extended([], r, 1) == [Zeros(r)]
  {
  }

  lemma WrittenIsRooted(d: seq<Block>, r: nat, m: Map, m0: Map, ino: nat, size: nat, off: nat)
    requires Inv(d, r, m) && ino < NumInodes(d, r) && Size(d, r, ino) > 0 && Reached(r, m0, m, ino, size, off)
    ensures Root(d, r, ino) != 0
  {
    OnWayEnd(r, m0, m, ino, size, off);
    RootedIffReached(d, r, m, ino, 0, off);
  }

  lemma SmallSizes()
    ensures InodeBlocksFor(2, 2) == 2 && Pow(2, 1) == 2
  {
  }

  lemma OneFreeable(k: nat)
    requires k >= 1
    ensures Freeable(k, 1)
  {
    PowPositive(2, k * (31 / k));
  }

  /** The smallest disk on which this happens: four blocks of two words, and two files. Every call
      is one its caller may make, but the last leaves a store with another number of inode blocks. */
  method WipeExample(below: BlockStore, blk: Block) returns (fs: TreeDisk, first: Outcome, second: Outcome)
    requires Sized(below.blocks, 2) && |below.blocks| == 4 && NumInodeBlocks(below.blocks) == 0 && |blk| == 2
    modifies below
    ensures first.Done? && second.Panicked? && fs.below == below
    ensures |below.blocks| == 4 && |below.blocks[0]| >= 2 && NumInodeBlocks(below.blocks) != 2
  {
    hide Files, FreeList, FixedPart, Partition, Store, Size, Root, Took, Returned, FreeCount, Needed, Reached,
         NewLevels, Extended, Freeable, InodeBlocksFor, Pow, Models;
    SmallSizes();
    OneFreeable(1);
    var result, m := Create(below, 2, 2);
    fs := new TreeDisk(below, 2, 1, m);
    ghost var d0 := below.blocks;
    StoreSize(d0, 2, m);
    FreshFree(d0, 2, m);
    StoreAt(d0, 2, m, 0);
    StoreAt(d0, 2, m, 1);
    FirstBlockNeeds(d0, 2, m, 0);
    first := fs.Write(0, 0, blk);
    ghost var d1 := below.blocks;
    StoreSize(d1, 2, fs.m);
    StoreAt(d1, 2, fs.m, 0);
    WrittenIsRooted(d1, 2, fs.m, m, 0, 0, 0);
    SameInodeBlocks(d0, d1, 2);
    second := WipeFull(fs, 1, 0, blk);
    ghost var d2 := below.blocks;
    StoreSize(d2, 2, fs.m);
    StoreAt(d2, 2, fs.m, 1);
    var _ := fs.SetSize(1, 0);
  }
}
