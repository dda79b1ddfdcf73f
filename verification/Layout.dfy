/**
 The on-disk layout of the tree block store: what a disk of word blocks has to
 look like, and which files it then holds.

 Each block of the disk has one owner, a Slot: its place in a file tree, in the
 free list, or in the fixed part. Because a slot determines where the only
 reference to its block is stored, "every block has one owner" says that the
 disk is partitioned: nothing is shared and nothing is lost.
 */
module Layout {
  import opened Radix

  type Block = seq<Word>

  datatype Slot =
    | Super
    | InodeBlock(k: nat)
    | Tree(ino: nat, level: nat, idx: nat)  // node idx of a level; level 0 holds data
    | FreeNode(i: nat)                      // i-th free-list node, counted from the end of the list
    | FreeEntry(i: nat, j: nat)             // the block recorded in slot j of that node
    | Lost(b: nat)                          // allocated, but not yet (or never) referenced

  /** owner[b] is the slot of block b; at is its inverse; height counts free-list nodes. */
  datatype Map = Map(owner: seq<Slot>, at: map<Slot, nat>, height: nat)

  function At(m: Map, s: Slot): nat {
    if s in m.at then m.at[s] else 0
  }

  function Zeros(r: nat): (z: Block)
    ensures |z| == r && forall i :: 0 <= i < r ==> z[i] == 0
  {
    seq(r, _ => 0)
  }

  function Put(blk: Block, i: nat, w: Word): Block
    requires i < |blk|
  {
    blk[i := w]
  }

  ghost predicate Sized(d: seq<Block>, r: nat) {
    && 0 < |d| < TWO32
    && r >= 2 && r % 2 == 0
    && forall b :: 0 <= b < |d| ==> |d[b]| == r
  }

  /** owner and at are inverse bijections between the blocks and the occupied slots. */
  ghost predicate Partition(n: nat, m: Map) {
    && |m.owner| == n
    && (forall b :: 0 <= b < n ==> m.owner[b] in m.at && m.at[m.owner[b]] == b)
    && (forall s :: s in m.at ==> m.at[s] < n && m.owner[m.at[s]] == s)
  }

  function NumInodeBlocks(d: seq<Block>): Word
    requires |d| > 0 && |d[0]| >= 2
  {
    d[0][0]
  }

  /** The superblock's reference to the first free-list node. */
  function Top(d: seq<Block>): Word
    requires |d| > 0 && |d[0]| >= 2
  {
    d[0][1]
  }

  /** The part of the disk at fixed places. */
  ghost predicate FixedPart(d: seq<Block>, m: Map)
    requires |d| > 0 && |d[0]| >= 2
  {
    && Super in m.at && m.at[Super] == 0
    && NumInodeBlocks(d) < |d|
    && (forall k: nat :: InodeBlock(k) in m.at <==> 1 <= k <= NumInodeBlocks(d))
    && (forall k: nat :: InodeBlock(k) in m.at ==> m.at[InodeBlock(k)] == k)
    && (forall b: nat :: Lost(b) in m.at ==> m.at[Lost(b)] == b)
  }

  /** Block number of the i-th free-list node from the end; 0 stands for the end itself. */
  function Next(m: Map, i: nat): nat {
    if i == 0 then 0 else At(m, FreeNode(i - 1))
  }

  ghost predicate FreeSlots(r: nat, m: Map) {
    && (forall i: nat :: FreeNode(i) in m.at <==> i < m.height)
    && (forall i: nat, j: nat :: FreeEntry(i, j) in m.at ==> i < m.height && 1 <= j < r)
  }

  ghost predicate FreeNodeHolds(blk: Block, r: nat, m: Map, i: nat)
    requires |blk| == r && r >= 2
  {
    && blk[0] == Next(m, i)
    && forall j :: 1 <= j < r ==> blk[j] == At(m, FreeEntry(i, j))
  }

  /** Named, so that the verifier looks at one free-list node at a time. */
  ghost predicate FreeNodeOk(d: seq<Block>, r: nat, m: Map, i: nat)
    requires Sized(d, r) && Partition(|d|, m)
  {
    FreeNode(i) in m.at ==> FreeNodeHolds(d[m.at[FreeNode(i)]], r, m, i)
  }

  ghost predicate FreeList(d: seq<Block>, r: nat, m: Map)
    requires Sized(d, r) && Partition(|d|, m)
  {
    && Top(d) == Next(m, m.height)
    && FreeSlots(r, m)
    && forall i: nat :: FreeNodeOk(d, r, m, i)
  }

  /** Everything but the files. */
  ghost predicate Core(d: seq<Block>, r: nat, m: Map) {
    && Sized(d, r)
    && Partition(|d|, m)
    && FixedPart(d, m)
    && FreeList(d, r, m)
  }

  // ---- inodes: word pairs (root, number of blocks), r/2 of them in an inode block ----

  function InodeBlockNo(r: nat, ino: nat): nat
    requires r >= 2
  {
    1 + ino / (r / 2)
  }

  function InodeWord(r: nat, ino: nat): (w: nat)
    requires r >= 2
    ensures w + 1 < r
  {
    2 * (ino % (r / 2))
  }

  function NumInodes(d: seq<Block>, r: nat): nat
    requires |d| > 0 && |d[0]| >= 2
  {
    NumInodeBlocks(d) * (r / 2)
  }

  lemma InodeInRange(d: seq<Block>, r: nat, ino: nat)
    requires |d| > 0 && |d[0]| >= 2 && r >= 2
    requires ino < NumInodes(d, r)
    ensures 1 <= InodeBlockNo(r, ino) <= NumInodeBlocks(d)
  {
    var nib, ipb := NumInodeBlocks(d), r / 2;
    QuotientsBelow(ino, ipb, nib, ino / ipb, ino % ipb);
  }

  lemma QuotientsBelow(x: nat, m: nat, n: nat, q: nat, s: nat)
    requires m > 0 && x == m * q + s && x < n * m
    ensures q < n
  {
    if q >= n { MulMonotone(m, n, q); }
  }

  /** What is needed to follow references at all. */
  ghost predicate Shaped(d: seq<Block>, r: nat, m: Map) {
    && Sized(d, r)
    && NumInodeBlocks(d) < |d|
    && forall s :: s in m.at ==> m.at[s] < |d|
  }

  function Root(d: seq<Block>, r: nat, ino: nat): Word
    requires Sized(d, r) && NumInodeBlocks(d) < |d| && ino < NumInodes(d, r)
  {
    InodeInRange(d, r, ino);
    d[InodeBlockNo(r, ino)][InodeWord(r, ino)]
  }

  function Size(d: seq<Block>, r: nat, ino: nat): Word
    requires Sized(d, r) && NumInodeBlocks(d) < |d| && ino < NumInodes(d, r)
  {
    InodeInRange(d, r, ino);
    d[InodeBlockNo(r, ino)][InodeWord(r, ino) + 1]
  }

  /** Levels of indirect blocks above the data blocks of a file of the given size. */
  function Levels(r: nat, size: nat): nat
    requires r >= 2
  {
    if size == 0 then 0 else Digits(r, size - 1)
  }

  // ---- one file ----

  /** Tree slots of a file lie inside its size and hang below an occupied parent. */
  ghost predicate TreeSlots(r: nat, m: Map, ino: nat, size: nat)
    requires r >= 2
  {
    forall l: nat, idx: nat :: TreeSlotOk(r, m, ino, size, l, idx)
  }

  ghost predicate TreeSlotOk(r: nat, m: Map, ino: nat, size: nat, l: nat, idx: nat)
    requires r >= 2
  {
    Tree(ino, l, idx) in m.at ==>
      && size > 0
      && l <= Levels(r, size)
      && idx <= Up(r, size - 1, l)
      && (l < Levels(r, size) ==> Tree(ino, l + 1, Parent(r, idx)) in m.at)
  }

  /** An indirect block refers to exactly its occupied children. */
  ghost predicate Refers(blk: Block, r: nat, m: Map, ino: nat, l: nat, idx: nat)
    requires |blk| == r && l > 0
  {
    forall j :: 0 <= j < r ==> blk[j] == At(m, Tree(ino, l - 1, Kid(r, idx, j)))
  }

  ghost predicate TreeRefs(d: seq<Block>, r: nat, m: Map, ino: nat)
    requires Shaped(d, r, m)
  {
    forall l: nat, idx: nat :: TreeRefsOk(d, r, m, ino, l, idx)
  }

  ghost predicate TreeRefsOk(d: seq<Block>, r: nat, m: Map, ino: nat, l: nat, idx: nat)
    requires Shaped(d, r, m)
  {
    Tree(ino, l, idx) in m.at && l > 0 ==> Refers(d[m.at[Tree(ino, l, idx)]], r, m, ino, l, idx)
  }

  ghost predicate FileOk(d: seq<Block>, r: nat, m: Map, ino: nat)
    requires Shaped(d, r, m) && ino < NumInodes(d, r)
  {
    && Root(d, r, ino) == At(m, Tree(ino, Levels(r, Size(d, r, ino)), 0))
    && (Size(d, r, ino) >= 2 ==> Root(d, r, ino) != 0)
    && TreeSlots(r, m, ino, Size(d, r, ino))
    && TreeRefs(d, r, m, ino)
  }

  ghost predicate Files(d: seq<Block>, r: nat, m: Map)
    requires Core(d, r, m)
  {
    && (forall ino: nat, l: nat, idx: nat :: Tree(ino, l, idx) in m.at ==> ino < NumInodes(d, r))
    && forall ino :: 0 <= ino < NumInodes(d, r) ==> FileOk(d, r, m, ino)
  }

  /** The invariant of the tree block store. */
  ghost predicate Inv(d: seq<Block>, r: nat, m: Map) {
    Core(d, r, m) && Files(d, r, m)
  }

  // ---- what the disk means ----

  /** Block off of a file: its data block, or zeros for a hole. */
  ghost function Content(d: seq<Block>, r: nat, m: Map, ino: nat, off: nat): Block
    requires Shaped(d, r, m)
  {
    if Tree(ino, 0, off) in m.at then d[m.at[Tree(ino, 0, off)]] else Zeros(r)
  }

  ghost function File(d: seq<Block>, r: nat, m: Map, ino: nat): (f: seq<Block>)
    requires Shaped(d, r, m) && ino < NumInodes(d, r)
    ensures |f| == Size(d, r, ino)
  {
    seq(Size(d, r, ino), off requires 0 <= off => Content(d, r, m, ino, off))
  }

  ghost function Store(d: seq<Block>, r: nat, m: Map): (s: seq<seq<Block>>)
    requires Core(d, r, m)
    ensures |s| == NumInodes(d, r)
  {
    seq(NumInodes(d, r), ino requires 0 <= ino < NumInodes(d, r) => File(d, r, m, ino))
  }

  // ---- moving a block from one slot to another ----

  function Move(m: Map, b: nat, t: Slot): Map
    requires b < |m.owner|
  {
    m.(owner := m.owner[b := t], at := (m.at - {m.owner[b]})[t := b])
  }

  /** m' is m with block b now in slot t. */
  ghost predicate Moved(n: nat, m: Map, m': Map, b: nat, t: Slot) {
    && Partition(n, m)
    && Partition(n, m')
    && b < n
    && t !in m.at
    && m'.owner == m.owner[b := t]
    && t in m'.at && m'.at[t] == b
    && (forall s :: s in m'.at <==> s == t || (s in m.at && s != m.owner[b]))
    && (forall s :: s in m.at && s != m.owner[b] ==> m'.at[s] == m.at[s])
  }

  lemma MoveMoves(n: nat, m: Map, b: nat, t: Slot, h: nat)
    requires Partition(n, m) && b < n && t !in m.at
    ensures Moved(n, m, Move(m, b, t), b, t) && Moved(n, m, Move(m, b, t).(height := h), b, t)
  {
  }

  /** The fixed part is untouched by moves between other slots. */
  lemma MoveFixed(d: seq<Block>, m: Map, d': seq<Block>, m': Map, b: nat, t: Slot)
    requires |d| > 0 && |d[0]| >= 2 && |d'| == |d| && |d'[0]| >= 2
    requires Moved(|d|, m, m', b, t) && FixedPart(d, m) && NumInodeBlocks(d') == NumInodeBlocks(d)
    requires !m.owner[b].Super? && !m.owner[b].InodeBlock?
    requires !t.Super? && !t.InodeBlock? && (t.Lost? ==> t.b == b)
    ensures FixedPart(d', m')
  {
  }

  /** A file depends only on its inode, its slots, and the contents of its blocks. */
  lemma FileFrame(d: seq<Block>, m: Map, d': seq<Block>, m': Map, r: nat, ino: nat)
    requires Shaped(d, r, m) && Shaped(d', r, m')
    requires NumInodes(d, r) == NumInodes(d', r) && ino < NumInodes(d, r)
    requires FileOk(d, r, m, ino)
    requires Root(d', r, ino) == Root(d, r, ino) && Size(d', r, ino) == Size(d, r, ino)
    requires SameSlots(m, m', ino)
    requires forall l: nat, idx: nat :: Tree(ino, l, idx) in m.at ==> d'[m'.at[Tree(ino, l, idx)]] == d[m.at[Tree(ino, l, idx)]]
    ensures FileOk(d', r, m', ino)
    ensures File(d', r, m', ino) == File(d, r, m, ino)
  {
    assert TreeRefs(d', r, m', ino) by {
      forall l: nat, idx: nat ensures TreeRefsOk(d', r, m', ino, l, idx) {
        assert TreeRefsOk(d, r, m, ino, l, idx);
      }
    }
    forall l: nat, idx: nat ensures TreeSlotOk(r, m', ino, Size(d, r, ino), l, idx) {
      assert TreeSlotOk(r, m, ino, Size(d, r, ino), l, idx);
    }
  }

  ghost predicate SameSlots(m: Map, m': Map, ino: nat) {
    forall l: nat, idx: nat :: (Tree(ino, l, idx) in m.at <==> Tree(ino, l, idx) in m'.at)
      && (Tree(ino, l, idx) in m.at ==> m'.at[Tree(ino, l, idx)] == m.at[Tree(ino, l, idx)])
  }
}
