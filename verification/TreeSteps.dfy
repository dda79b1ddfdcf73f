/** The single steps by which operations change the disk, and what each keeps. */
module TreeSteps {
  import opened Radix
  import opened Layout
  import opened FreeLists

  /** Files see the same tree when no block enters or leaves it. */
  lemma SlotFrame(n: nat, m: Map, m': Map, ino: nat)
    requires Partition(n, m) && Partition(n, m')
    requires forall b :: 0 <= b < n && (InFile(m.owner[b], ino) || InFile(m'.owner[b], ino)) ==> m'.owner[b] == m.owner[b]
    ensures SameSlots(m, m', ino)
  {
    forall l: nat, idx: nat
      ensures Tree(ino, l, idx) in m.at <==> Tree(ino, l, idx) in m'.at
      ensures Tree(ino, l, idx) in m.at ==> m'.at[Tree(ino, l, idx)] == m.at[Tree(ino, l, idx)]
    {
      var s := Tree(ino, l, idx);
      if s in m.at { assert m'.owner[m.at[s]] == s; }
      if s in m'.at { assert m.owner[m'.at[s]] == s; }
    }
  }

  predicate InFile(s: Slot, ino: nat) {
    s.Tree? && s.ino == ino
  }

  /** Slots a file operation may exchange. */
  predicate Movable(s: Slot) {
    s.Tree? || s.Lost?
  }

  lemma CoreFrame(d: seq<Block>, m: Map, d': seq<Block>, m': Map, r: nat)
    requires Core(d, r, m) && Sized(d', r) && |d'| == |d| && Partition(|d|, m') && m'.height == m.height
    requires forall b :: 0 <= b < |d| && m'.owner[b] != m.owner[b] ==> Movable(m.owner[b]) && m'.owner[b].Tree?
    requires forall b :: 0 <= b < |d| && FreeOwned(m.owner[b]) ==> d'[b] == d[b]
    ensures Core(d', r, m')
    ensures NumInodeBlocks(d') == NumInodeBlocks(d)
  {
    assert m.owner[0] == Super by { assert m.at[Super] == 0; }
    assert SameFixed(m, m') by {
      forall s: Slot | !Movable(s)
        ensures s in m.at <==> s in m'.at
        ensures s in m.at ==> m'.at[s] == m.at[s]
      {
        if s in m.at { assert m'.owner[m.at[s]] == s; }
        if s in m'.at { assert m.owner[m'.at[s]] == s; }
      }
    }
    forall b: nat | Lost(b) in m'.at ensures m'.at[Lost(b)] == b {
      assert m.owner[m'.at[Lost(b)]] == Lost(b);
    }
    SameFixedCore(d, m, d', m', r);
  }

  ghost predicate SameFixed(m: Map, m': Map) {
    forall s: Slot :: !Movable(s) ==> (s in m.at <==> s in m'.at) && (s in m.at ==> m'.at[s] == m.at[s])
  }

  lemma FixedStill(d: seq<Block>, m: Map, d': seq<Block>, m': Map)
    requires |d| > 0 && |d[0]| >= 2 && |d'| == |d| && d'[0] == d[0] && FixedPart(d, m) && SameFixed(m, m')
    requires forall b: nat :: Lost(b) in m'.at ==> m'.at[Lost(b)] == b
    ensures FixedPart(d', m')
  {
  }

  lemma SameFixedCore(d: seq<Block>, m: Map, d': seq<Block>, m': Map, r: nat)
    requires Core(d, r, m) && Sized(d', r) && |d'| == |d| && Partition(|d|, m') && m'.height == m.height
    requires SameFixed(m, m') && d'[0] == d[0]
    requires forall b: nat :: Lost(b) in m'.at ==> m'.at[Lost(b)] == b
    requires forall b :: 0 <= b < |d| && m.owner[b].FreeNode? ==> d'[b] == d[b]
    ensures Core(d', r, m')
  {
    hide FixedPart;
    FixedStill(d, m, d', m');
    assert Next(m', m'.height) == Next(m, m.height);
    forall i: nat ensures FreeNodeOk(d', r, m', i) {
      assert FreeNodeOk(d, r, m, i);
      NodeFrame(d, m, d', m', r, i);
    }
  }

  /** A step that keeps the core, all tree blocks and all inodes keeps every file. */
  lemma FilesFrame(d: seq<Block>, m: Map, d': seq<Block>, m': Map, r: nat)
    requires Inv(d, r, m) && Core(d', r, m') && |d'| == |d| && NumInodeBlocks(d') == NumInodeBlocks(d)
    requires forall b :: 0 <= b < |d| && (m.owner[b].Tree? || m'.owner[b].Tree?) ==> m'.owner[b] == m.owner[b]
    requires forall b :: 0 <= b < |d| && (m.owner[b].Tree? || m.owner[b].InodeBlock?) ==> d'[b] == d[b]
    ensures Inv(d', r, m')
    ensures Store(d', r, m') == Store(d, r, m)
  {
    forall ino: nat | ino < NumInodes(d, r)
      ensures FileOk(d', r, m', ino) && File(d', r, m', ino) == File(d, r, m, ino)
    {
      assert FileOk(d, r, m, ino);
      InodeBlockOwner(d, r, m, ino);
      OneFileFrame(d, m, d', m', r, ino);
    }
    forall ino: nat, l: nat, idx: nat | Tree(ino, l, idx) in m'.at ensures ino < NumInodes(d, r) {
      assert m.owner[m'.at[Tree(ino, l, idx)]] == Tree(ino, l, idx);
    }
  }

  lemma InodeBlockOwner(d: seq<Block>, r: nat, m: Map, ino: nat)
    requires Core(d, r, m) && ino < NumInodes(d, r)
    ensures 1 <= InodeBlockNo(r, ino) <= NumInodeBlocks(d) < |d|
    ensures m.owner[InodeBlockNo(r, ino)] == InodeBlock(InodeBlockNo(r, ino))
  {
    InodeInRange(d, r, ino);
    assert InodeBlock(InodeBlockNo(r, ino)) in m.at;
  }

  /** The same for one file. */
  lemma OneFileFrame(d: seq<Block>, m: Map, d': seq<Block>, m': Map, r: nat, ino: nat)
    requires Core(d, r, m) && Core(d', r, m') && |d'| == |d| && NumInodeBlocks(d') == NumInodeBlocks(d)
    requires ino < NumInodes(d, r) && FileOk(d, r, m, ino)
    requires Root(d', r, ino) == Root(d, r, ino) && Size(d', r, ino) == Size(d, r, ino)
    requires forall b :: 0 <= b < |d| && (InFile(m.owner[b], ino) || InFile(m'.owner[b], ino)) ==> m'.owner[b] == m.owner[b]
    requires forall b :: 0 <= b < |d| && InFile(m.owner[b], ino) ==> d'[b] == d[b]
    ensures FileOk(d', r, m', ino) && File(d', r, m', ino) == File(d, r, m, ino)
  {
    SlotFrame(|d|, m, m', ino);
    FileFrame(d, m, d', m', r, ino);
  }

  // ---- steps on one file ----

  ghost predicate InodesKept(d: seq<Block>, d': seq<Block>, r: nat, ino: nat)
    requires Sized(d, r) && Sized(d', r) && |d| == |d'|
    requires NumInodeBlocks(d) == NumInodeBlocks(d') < |d|
  {
    forall x: nat :: x < NumInodes(d, r) && x != ino ==> Root(d', r, x) == Root(d, r, x) && Size(d', r, x) == Size(d, r, x)
  }

  /** A step on file ino: only its blocks and its inode may change. */
  ghost predicate OnlyFile(d: seq<Block>, m: Map, d': seq<Block>, m': Map, r: nat, ino: nat)
    requires Core(d, r, m) && Core(d', r, m')
  {
    && |d'| == |d| && NumInodeBlocks(d') == NumInodeBlocks(d)
    && InodesKept(d, d', r, ino)
    && (forall b :: 0 <= b < |d| && m'.owner[b] != m.owner[b] ==> !m.owner[b].Tree? && InFile(m'.owner[b], ino))
    && (forall b :: 0 <= b < |d| && m.owner[b].Tree? && m.owner[b].ino != ino ==> d'[b] == d[b])
  }

  lemma OneFileStep(d: seq<Block>, m: Map, d': seq<Block>, m': Map, r: nat, ino: nat)
    requires Inv(d, r, m) && Core(d', r, m') && ino < NumInodes(d, r)
    requires OnlyFile(d, m, d', m', r, ino)
    requires FileOk(d', r, m', ino)
    ensures Inv(d', r, m')
    ensures Store(d', r, m') == Store(d, r, m)[ino := File(d', r, m', ino)]
  {
    forall x: nat | x < NumInodes(d, r) && x != ino
      ensures FileOk(d', r, m', x) && File(d', r, m', x) == File(d, r, m, x)
    {
      assert FileOk(d, r, m, x);
      OneFileFrame(d, m, d', m', r, x);
    }
    forall x: nat, l: nat, idx: nat | Tree(x, l, idx) in m'.at ensures x < NumInodes(d, r) {
      assert m'.owner[m'.at[Tree(x, l, idx)]] == Tree(x, l, idx);
    }
  }

  /** The inode block with one inode replaced. */
  function PutInode(d: seq<Block>, r: nat, ino: nat, root: Word, size: Word): Block
    requires Sized(d, r) && NumInodeBlocks(d) < |d| && ino < NumInodes(d, r)
  {
    InodeInRange(d, r, ino);
    Put(Put(d[InodeBlockNo(r, ino)], InodeWord(r, ino), root), InodeWord(r, ino) + 1, size)
  }

  lemma InodeWritten(d: seq<Block>, r: nat, ino: nat, root: Word, size: Word, d': seq<Block>)
    requires Sized(d, r) && NumInodeBlocks(d) < |d| && ino < NumInodes(d, r)
    requires InodeBlockNo(r, ino) < |d| && d' == d[InodeBlockNo(r, ino) := PutInode(d, r, ino, root, size)]
    ensures Sized(d', r) && NumInodeBlocks(d') == NumInodeBlocks(d)
    ensures Root(d', r, ino) == root && Size(d', r, ino) == size
    ensures InodesKept(d, d', r, ino)
  {
    InodeInRange(d, r, ino);
    forall x: nat | x < NumInodes(d, r) && x != ino
      ensures Root(d', r, x) == Root(d, r, x) && Size(d', r, x) == Size(d, r, x)
    {
      InodeInRange(d, r, x);
      if InodeBlockNo(r, x) == InodeBlockNo(r, ino) { InodesApart(r, x, ino); }
    }
  }

  lemma InodesApart(r: nat, x: nat, y: nat)
    requires r >= 2 && x != y && InodeBlockNo(r, x) == InodeBlockNo(r, y)
    ensures InodeWord(r, x) + 1 < InodeWord(r, y) || InodeWord(r, y) + 1 < InodeWord(r, x)
  {
    SameBlockOtherWord(r / 2, x, y);
  }

  lemma SameBlockOtherWord(p: nat, x: nat, y: nat)
    requires p > 0 && x / p == y / p && x != y
    ensures x % p != y % p
  {
    assert x == p * (x / p) + x % p;
    assert y == p * (y / p) + y % p;
  }

  // -- replacing the data of an existing block --

  lemma OverwriteStep(d: seq<Block>, m: Map, r: nat, ino: nat, off: nat, blk: Block)
    requires Inv(d, r, m) && ino < NumInodes(d, r) && |blk| == r
    requires Tree(ino, 0, off) in m.at && off < Size(d, r, ino)
    ensures var b := m.at[Tree(ino, 0, off)];
      && b < |d|
      && Inv(d[b := blk], r, m)
      && Store(d[b := blk], r, m) == Store(d, r, m)[ino := File(d, r, m, ino)[off := blk]]
  {
    var b := m.at[Tree(ino, 0, off)];
    var d' := d[b := blk];
    CoreFrame(d, m, d', m, r);
    assert FileOk(d, r, m, ino);
    InodeBlockOwner(d, r, m, ino);
    InodesUntouched(d, d', r, m, ino, b);
    OverwriteFile(d, m, d', r, ino, off, blk);
    OneFileStep(d, m, d', m, r, ino);
    assert File(d', r, m, ino) == File(d, r, m, ino)[off := blk];
  }

  lemma InodesUntouched(d: seq<Block>, d': seq<Block>, r: nat, m: Map, ino: nat, b: nat)
    requires Core(d, r, m) && Sized(d', r) && b < |d| == |d'|
    requires !m.owner[b].InodeBlock? && !m.owner[b].Super?
    requires forall x :: 0 <= x < |d| && x != b ==> d'[x] == d[x]
    ensures NumInodeBlocks(d') == NumInodeBlocks(d)
    ensures InodesKept(d, d', r, ino)
    ensures ino < NumInodes(d, r) ==> Root(d', r, ino) == Root(d, r, ino) && Size(d', r, ino) == Size(d, r, ino)
  {
    assert m.owner[0] == Super by { assert m.at[Super] == 0; }
    forall x: nat | x < NumInodes(d, r)
      ensures Root(d', r, x) == Root(d, r, x) && Size(d', r, x) == Size(d, r, x)
    {
      InodeBlockOwner(d, r, m, x);
    }
  }

  lemma OverwriteFile(d: seq<Block>, m: Map, d': seq<Block>, r: nat, ino: nat, off: nat, blk: Block)
    requires Core(d, r, m) && Core(d', r, m) && |d'| == |d| && NumInodeBlocks(d') == NumInodeBlocks(d)
    requires ino < NumInodes(d, r) && FileOk(d, r, m, ino)
    requires Root(d', r, ino) == Root(d, r, ino) && Size(d', r, ino) == Size(d, r, ino)
    requires Tree(ino, 0, off) in m.at && |blk| == r && off < Size(d, r, ino)
    requires d' == d[m.at[Tree(ino, 0, off)] := blk]
    ensures FileOk(d', r, m, ino)
    ensures File(d', r, m, ino) == File(d, r, m, ino)[off := blk]
  {
    forall l: nat, idx: nat ensures TreeRefsOk(d', r, m, ino, l, idx) {
      assert TreeRefsOk(d, r, m, ino, l, idx);
    }
  }
}
