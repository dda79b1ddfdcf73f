/** Attaching new blocks to a file: filling a hole, and adding levels above the root. */
module TreeGrowth {
  import opened Radix
  import opened Layout
  import opened FreeLists
  import opened TreeSteps

  /** Which reference of its level-(l+1) ancestor leads to position off. */
  function Digit(r: nat, off: nat, l: nat): (j: nat)
    requires r > 0
    ensures j < r
  {
    Up(r, off, l) % r
  }

  /** What it takes to hang block f into slot Tree(ino, l, Up(off, l)). */
  ghost predicate Linkable(d: seq<Block>, r: nat, m: Map, ino: nat, l: nat, off: nat, f: nat, blk: Block)
    requires Core(d, r, m)
  {
    && ino < NumInodes(d, r)
    && off < Size(d, r, ino) && l <= Levels(r, Size(d, r, ino))
    && f < |d| && m.owner[f] == Lost(f)
    && |blk| == r && (l > 0 ==> blk == Zeros(r))
    && Tree(ino, l, Up(r, off, l)) !in m.at
    && (l < Levels(r, Size(d, r, ino)) ==> Tree(ino, l + 1, Up(r, off, l + 1)) in m.at)
  }

  lemma LinkSlots(r: nat, m: Map, m': Map, ino: nat, size: nat, l: nat, off: nat)
    requires r >= 2 && off < size && l <= Levels(r, size)
    requires TreeSlots(r, m, ino, size)
    requires l < Levels(r, size) ==> Tree(ino, l + 1, Up(r, off, l + 1)) in m.at
    requires forall k: nat, idx: nat :: Tree(ino, k, idx) in m'.at <==> (k == l && idx == Up(r, off, l)) || Tree(ino, k, idx) in m.at
    ensures TreeSlots(r, m', ino, size)
  {
    UpMonotone(r, off, size - 1, l);
    UpStep(r, off, l);
    forall k: nat, idx: nat ensures TreeSlotOk(r, m', ino, size, k, idx) {
      assert TreeSlotOk(r, m, ino, size, k, idx);
    }
  }

  /** Below a slot that is not occupied there is nothing. */
  lemma NothingBelow(r: nat, m: Map, ino: nat, size: nat, l: nat, idx: nat, j: nat)
    requires r >= 2 && TreeSlots(r, m, ino, size) && 0 < l <= Levels(r, size) && j < r
    requires Tree(ino, l, idx) !in m.at
    ensures Tree(ino, l - 1, Kid(r, idx, j)) !in m.at
  {
    KidDigits(r, idx, j);
    assert TreeSlotOk(r, m, ino, size, l - 1, Kid(r, idx, j));
  }

  lemma EmptyNodeRefers(r: nat, m: Map, m': Map, ino: nat, size: nat, l: nat, idx: nat)
    requires r >= 2 && TreeSlots(r, m, ino, size) && 0 < l <= Levels(r, size)
    requires Tree(ino, l, idx) !in m.at
    requires forall k: nat, i: nat :: k < l ==> (Tree(ino, k, i) in m'.at <==> Tree(ino, k, i) in m.at)
    ensures Refers(Zeros(r), r, m', ino, l, idx)
  {
    forall j | 0 <= j < r ensures At(m', Tree(ino, l - 1, Kid(r, idx, j))) == 0 {
      NothingBelow(r, m, ino, size, l, idx, j);
    }
  }

  /** The parent's references after one of them was filled in. */
  lemma ParentRefers(blk: Block, r: nat, m: Map, m': Map, ino: nat, l: nat, idx: nat, x: nat, f: Word)
    requires r >= 2 && |blk| == r && Refers(blk, r, m, ino, l + 1, idx)
    requires idx == x / r && Tree(ino, l, x) in m'.at && m'.at[Tree(ino, l, x)] == f
    requires forall i: nat :: i != x ==> At(m', Tree(ino, l, i)) == At(m, Tree(ino, l, i))
    ensures Refers(Put(blk, x % r, f), r, m', ino, l + 1, idx)
  {
    KidOfDigits(r, x);
    forall j | 0 <= j < r ensures Put(blk, x % r, f)[j] == At(m', Tree(ino, l, Kid(r, idx, j))) {
      KidDigits(r, idx, j);
    }
  }

  lemma OtherRefers(blk: Block, r: nat, m: Map, m': Map, ino: nat, k: nat, idx: nat, l: nat, x: nat)
    requires r >= 2 && |blk| == r && k > 0 && Refers(blk, r, m, ino, k, idx)
    requires k != l + 1 || idx != x / r
    requires forall c: nat, i: nat :: c != l || i != x ==> At(m', Tree(ino, c, i)) == At(m, Tree(ino, c, i))
    ensures Refers(blk, r, m', ino, k, idx)
  {
    forall j | 0 <= j < r ensures blk[j] == At(m', Tree(ino, k - 1, Kid(r, idx, j))) {
      KidDigits(r, idx, j);
    }
  }

  /** References stay exact when f is linked below the node at block p (or below the inode). */
  lemma LinkRefs(d: seq<Block>, m: Map, d': seq<Block>, m': Map, r: nat, ino: nat, size: nat, l: nat, off: nat,
          f: nat, blk: Block)
    requires Shaped(d, r, m) && Shaped(d', r, m') && |d| == |d'| && off < size && l <= Levels(r, size)
    requires TreeSlots(r, m, ino, size) && TreeRefs(d, r, m, ino)
    requires f < |d| && d'[f] == blk && (l > 0 ==> blk == Zeros(r))
    requires Tree(ino, l, Up(r, off, l)) !in m.at
    requires Tree(ino, l, Up(r, off, l)) in m'.at && m'.at[Tree(ino, l, Up(r, off, l))] == f
    requires forall k: nat, i: nat :: k != l || i != Up(r, off, l) ==> At(m', Tree(ino, k, i)) == At(m, Tree(ino, k, i))
    requires forall k: nat, i: nat :: k != l || i != Up(r, off, l) ==> (Tree(ino, k, i) in m'.at <==> Tree(ino, k, i) in m.at)
    requires forall k: nat, i: nat :: Tree(ino, k, i) in m.at && (k != l + 1 || i != Up(r, off, l + 1))
               ==> d'[m.at[Tree(ino, k, i)]] == d[m.at[Tree(ino, k, i)]]
    requires Tree(ino, l + 1, Up(r, off, l + 1)) in m.at ==>
               var p := m.at[Tree(ino, l + 1, Up(r, off, l + 1))];
               d'[p] == Put(d[p], Digit(r, off, l), f)
    ensures TreeRefs(d', r, m', ino)
  {
    UpStep(r, off, l);
    var x := Up(r, off, l);
    forall k: nat, i: nat ensures TreeRefsOk(d', r, m', ino, k, i) {
      assert TreeRefsOk(d, r, m, ino, k, i);
      if Tree(ino, k, i) in m'.at && k > 0 {
        if k == l && i == x {
          EmptyNodeRefers(r, m, m', ino, size, l, x);
        } else if k == l + 1 && i == x / r {
          ParentRefers(d[m.at[Tree(ino, k, i)]], r, m, m', ino, l, i, x, f);
        } else {
          OtherRefers(d[m.at[Tree(ino, k, i)]], r, m, m', ino, k, i, l, x);
        }
      }
    }
  }

  lemma MovedTree(n: nat, m: Map, m': Map, f: nat, ino: nat, l: nat, x: nat)
    requires Moved(n, m, m', f, Tree(ino, l, x)) && m.owner[f] == Lost(f)
    ensures forall k: nat, i: nat :: k != l || i != x ==> At(m', Tree(ino, k, i)) == At(m, Tree(ino, k, i))
    ensures forall k: nat, i: nat :: k != l || i != x ==> (Tree(ino, k, i) in m'.at <==> Tree(ino, k, i) in m.at)
    ensures forall k: nat, i: nat :: Tree(ino, k, i) in m'.at <==> (k == l && i == x) || Tree(ino, k, i) in m.at
    ensures Tree(ino, l, x) in m'.at && m'.at[Tree(ino, l, x)] == f
  {
  }

  /** The disk after f, holding blk, was linked below the block p. */
  function LinkBelow(d: seq<Block>, p: nat, j: nat, f: Word, blk: Block): seq<Block>
    requires p < |d| && f < |d| && j < |d[p]|
  {
    d[p := Put(d[p], j, f)][f := blk]
  }

  /** The file once block f is there: one hole less if f is a data block. */
  ghost function Filled(file: seq<Block>, l: nat, off: nat, blk: Block): seq<Block>
    requires off < |file|
  {
    if l == 0 then file[off := blk] else file
  }

  lemma LinkContent(d: seq<Block>, m: Map, d': seq<Block>, m': Map, r: nat, ino: nat, l: nat, off: nat, f: nat,
          blk: Block)
    requires Shaped(d, r, m) && Shaped(d', r, m') && |d| == |d'| && NumInodeBlocks(d') == NumInodeBlocks(d)
    requires ino < NumInodes(d, r) && Size(d', r, ino) == Size(d, r, ino) && off < Size(d, r, ino)
    requires f < |d| && d'[f] == blk
    requires Tree(ino, l, Up(r, off, l)) in m'.at && m'.at[Tree(ino, l, Up(r, off, l))] == f
    requires forall k: nat, i: nat :: k != l || i != Up(r, off, l) ==> (Tree(ino, k, i) in m'.at <==> Tree(ino, k, i) in m.at)
    requires forall k: nat, i: nat :: k != l || i != Up(r, off, l) ==> At(m', Tree(ino, k, i)) == At(m, Tree(ino, k, i))
    requires forall i: nat :: Tree(ino, 0, i) in m.at ==> d'[m.at[Tree(ino, 0, i)]] == d[m.at[Tree(ino, 0, i)]]
    requires Tree(ino, l, Up(r, off, l)) !in m.at
    ensures File(d', r, m', ino) == Filled(File(d, r, m, ino), l, off, blk)
  {
    UpZero(r, off);
    forall i: nat | i < Size(d, r, ino)
      ensures Content(d', r, m', ino, i) == if l == 0 && i == off then blk else Content(d, r, m, ino, i)
    {
      assert l == 0 && i == off ==> Up(r, off, l) == i;
      assert !(l == 0 && i == off) ==> At(m', Tree(ino, 0, i)) == At(m, Tree(ino, 0, i));
    }
  }

  lemma LinkChild(d: seq<Block>, m: Map, m': Map, r: nat, ino: nat, l: nat, off: nat, f: nat, blk: Block)
    requires Inv(d, r, m) && Linkable(d, r, m, ino, l, off, f, blk) && l < Levels(r, Size(d, r, ino))
    requires Moved(|d|, m, m', f, Tree(ino, l, Up(r, off, l))) && m'.height == m.height
    ensures var p := m.at[Tree(ino, l + 1, Up(r, off, l + 1))];
      var d' := LinkBelow(d, p, Digit(r, off, l), f, blk);
      && p != f
      && Inv(d', r, m')
      && Store(d', r, m') == Store(d, r, m)[ino := Filled(File(d, r, m, ino), l, off, blk)]
  {
    assert FileOk(d, r, m, ino);
    var p := m.at[Tree(ino, l + 1, Up(r, off, l + 1))];
    var d' := LinkBelow(d, p, Digit(r, off, l), f, blk);
    assert m.owner[p] == Tree(ino, l + 1, Up(r, off, l + 1));
    CoreFrame(d, m, d', m', r);
    LinkInodes(d, r, m, d', ino, p, f);
    MovedTree(|d|, m, m', f, ino, l, Up(r, off, l));
    LinkFileOk(d, m, d', m', r, ino, l, off, f, blk);
    LinkContent(d, m, d', m', r, ino, l, off, f, blk);
    OneFileStep(d, m, d', m', r, ino);
  }

  lemma LinkInodes(d: seq<Block>, r: nat, m: Map, d': seq<Block>, ino: nat, p: nat, f: nat)
    requires Core(d, r, m) && ino < NumInodes(d, r) && p < |d| && f < |d| == |d'| && Sized(d', r)
    requires m.owner[p].Tree? && m.owner[f].Lost?
    requires forall b :: 0 <= b < |d| && b != p && b != f ==> d'[b] == d[b]
    ensures NumInodeBlocks(d') == NumInodeBlocks(d)
    ensures InodesKept(d, d', r, ino)
    ensures Root(d', r, ino) == Root(d, r, ino) && Size(d', r, ino) == Size(d, r, ino)
  {
    assert m.owner[0] == Super by { assert m.at[Super] == 0; }
    forall x: nat | x < NumInodes(d, r)
      ensures Root(d', r, x) == Root(d, r, x) && Size(d', r, x) == Size(d, r, x)
    {
      InodeBlockOwner(d, r, m, x);
    }
  }

  lemma LinkFileOk(d: seq<Block>, m: Map, d': seq<Block>, m': Map, r: nat, ino: nat, l: nat, off: nat, f: nat,
          blk: Block)
    requires Core(d, r, m) && Linkable(d, r, m, ino, l, off, f, blk) && l < Levels(r, Size(d, r, ino))
    requires FileOk(d, r, m, ino)
    requires Moved(|d|, m, m', f, Tree(ino, l, Up(r, off, l)))
    requires Core(d', r, m') && |d'| == |d| && NumInodeBlocks(d') == NumInodeBlocks(d)
    requires Root(d', r, ino) == Root(d, r, ino) && Size(d', r, ino) == Size(d, r, ino)
    requires d' == LinkBelow(d, m.at[Tree(ino, l + 1, Up(r, off, l + 1))], Digit(r, off, l), f, blk)
    ensures FileOk(d', r, m', ino)
  {
    var size := Size(d, r, ino);
    MovedTree(|d|, m, m', f, ino, l, Up(r, off, l));
    LinkSlots(r, m, m', ino, size, l, off);
    LinkRefs(d, m, d', m', r, ino, size, l, off, f, blk);
  }

  lemma LinkRoot(d: seq<Block>, m: Map, m': Map, r: nat, ino: nat, off: nat, f: Word, blk: Block, d': seq<Block>)
    requires Inv(d, r, m) && ino < NumInodes(d, r)
    requires Linkable(d, r, m, ino, Levels(r, Size(d, r, ino)), off, f, blk)
    requires Moved(|d|, m, m', f, Tree(ino, Levels(r, Size(d, r, ino)), 0)) && m'.height == m.height
    requires InodeBlockNo(r, ino) < |d|
    requires d' == d[InodeBlockNo(r, ino) := PutInode(d, r, ino, f, Size(d, r, ino))][f := blk]
    ensures Inv(d', r, m')
    ensures Store(d', r, m') == Store(d, r, m)[ino := Filled(File(d, r, m, ino), Levels(r, Size(d, r, ino)), off, blk)]
    ensures Root(d', r, ino) == f && Size(d', r, ino) == Size(d, r, ino)
  {
    hide Files, FreeList, FixedPart, Refers, TreeRefs;
    FileInOrder(d, r, m, ino);
    InodeBlockOwner(d, r, m, ino);
    var size := Size(d, r, ino);
    var L := Levels(r, size);
    TopIndex(r, off, size);
    var d1 := d[InodeBlockNo(r, ino) := PutInode(d, r, ino, f, size)];
    InodeWritten(d, r, ino, f, size, d1);
    RootInodes(d, d1, d', r, m, ino, f);
    CoreFrame(d, m, d', m', r);
    MovedTree(|d|, m, m', f, ino, L, 0);
    LinkSlots(r, m, m', ino, size, L, off);
    NothingAboveRoot(r, m, ino, size);
    LinkRefs(d, m, d', m', r, ino, size, L, off, f, blk);
    LinkContent(d, m, d', m', r, ino, L, off, f, blk);
    OneFileStep(d, m, d', m', r, ino);
  }

  lemma FileInOrder(d: seq<Block>, r: nat, m: Map, ino: nat)
    requires Inv(d, r, m) && ino < NumInodes(d, r)
    ensures FileOk(d, r, m, ino) && m.owner[0] == Super
  {
    assert m.at[Super] == 0;
  }

  lemma TopIndex(r: nat, off: nat, size: nat)
    requires r >= 2 && off < size
    ensures Up(r, off, Levels(r, size)) == 0
  {
    UpMonotone(r, off, size - 1, Levels(r, size));
    DigitsExact(r, size - 1, Levels(r, size));
  }

  lemma NothingAboveRoot(r: nat, m: Map, ino: nat, size: nat)
    requires r >= 2 && TreeSlots(r, m, ino, size)
    ensures forall l: nat, idx: nat :: l > Levels(r, size) ==> Tree(ino, l, idx) !in m.at
  {
    forall l: nat, idx: nat | l > Levels(r, size) ensures Tree(ino, l, idx) !in m.at {
      assert TreeSlotOk(r, m, ino, size, l, idx);
    }
  }

  /** Filling a block that holds no inode leaves the inodes as d1 has them. */
  lemma RootInodes(d: seq<Block>, d1: seq<Block>, d': seq<Block>, r: nat, m: Map, ino: nat, f: nat)
    requires Core(d, r, m) && ino < NumInodes(d, r)
    requires Sized(d1, r) && |d1| == |d| && NumInodeBlocks(d1) == NumInodeBlocks(d) && InodesKept(d, d1, r, ino)
    requires f < |d| && m.owner[f].Lost? && Sized(d', r) && |d'| == |d|
    requires forall b :: 0 <= b < |d| && b != f ==> d'[b] == d1[b]
    ensures NumInodeBlocks(d') == NumInodeBlocks(d)
    ensures InodesKept(d, d', r, ino)
    ensures Root(d', r, ino) == Root(d1, r, ino) && Size(d', r, ino) == Size(d1, r, ino)
  {
    assert m.owner[0] == Super by { assert m.at[Super] == 0; }
    forall x: nat | x < NumInodes(d, r)
      ensures Root(d', r, x) == Root(d1, r, x) && Size(d', r, x) == Size(d1, r, x)
    {
      InodeBlockOwner(d, r, m, x);
    }
  }
}
