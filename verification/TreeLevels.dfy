/** Extending a file: a larger size and, if needed, new levels above the root. */
module TreeLevels {
  import opened Radix
  import opened Layout
  import opened FreeLists
  import opened TreeSteps
  import opened TreeGrowth

  /** The map once the blocks of chain have become the tops of levels level, level+1, ... */
  ghost function Adopt(m: Map, ino: nat, level: nat, chain: seq<nat>): Map
    decreases |chain|
  {
    if chain == [] || chain[0] >= |m.owner| then m else Adopt(Move(m, chain[0], Tree(ino, level, 0)), ino, level + 1, chain[1..])
  }

  ghost predicate InSlot(m: Map, s: Slot, b: nat) {
    s in m.at && m.at[s] == b
  }

  ghost predicate LostBlocks(n: nat, m: Map, chain: seq<nat>) {
    && Partition(n, m)
    && (forall i :: 0 <= i < |chain| ==> chain[i] < n && m.owner[chain[i]] == Lost(chain[i]))
    && (forall i, j :: 0 <= i < j < |chain| ==> chain[i] != chain[j])
  }

  ghost predicate Adopted(n: nat, m: Map, m': Map, ino: nat, level: nat, chain: seq<nat>) {
    && |m'.owner| == n == |m.owner|
    && (forall i :: 0 <= i < |chain| ==> chain[i] < n && m'.owner[chain[i]] == Tree(ino, level + i, 0))
    && (forall b :: 0 <= b < n && b !in chain ==> m'.owner[b] == m.owner[b])
  }

  lemma {:induction false} AdoptOwners(n: nat, m: Map, ino: nat, level: nat, chain: seq<nat>)
    requires LostBlocks(n, m, chain)
    requires forall l: nat, i: nat :: Tree(ino, l, i) in m.at ==> l < level
    ensures var m' := Adopt(m, ino, level, chain);
      Partition(n, m') && m'.height == m.height && Adopted(n, m, m', ino, level, chain)
    decreases |chain|
  {
    if chain != [] {
      var t := Tree(ino, level, 0);
      assert chain[0] < |m.owner| && t !in m.at;
      var m1 := Move(m, chain[0], t);
      assert m1.height == m.height;
      MoveMoves(n, m, chain[0], t, m.height);
      hide Move, Partition, Moved, LostBlocks, Adopted;
      AdoptFirst(n, m, m1, ino, level, chain);
      AdoptOwners(n, m1, ino, level + 1, chain[1..]);
      AdoptRest(n, m, m1, Adopt(m, ino, level, chain), ino, level, chain);
    }
  }

  lemma AdoptFirst(n: nat, m: Map, m1: Map, ino: nat, level: nat, chain: seq<nat>)
    requires LostBlocks(n, m, chain) && chain != []
    requires forall l: nat, i: nat :: Tree(ino, l, i) in m.at ==> l < level
    requires Moved(n, m, m1, chain[0], Tree(ino, level, 0))
    ensures LostBlocks(n, m1, chain[1..])
    ensures |m.owner| == n && chain[0] < n && m1.owner == m.owner[chain[0] := Tree(ino, level, 0)]
    ensures forall l: nat, i: nat :: Tree(ino, l, i) in m1.at ==> l < level + 1
  {
  }

  lemma AdoptRest(n: nat, m: Map, m1: Map, m': Map, ino: nat, level: nat, chain: seq<nat>)
    requires LostBlocks(n, m, chain) && chain != []
    requires m1.owner == m.owner[chain[0] := Tree(ino, level, 0)]
    requires Adopted(n, m1, m', ino, level + 1, chain[1..])
    ensures Adopted(n, m, m', ino, level, chain)
  {
    forall i | 0 <= i < |chain| ensures m'.owner[chain[i]] == Tree(ino, level + i, 0) {
      if i > 0 { assert chain[i] == chain[1..][i - 1]; } else { assert chain[0] !in chain[1..]; }
    }
    forall b | 0 <= b < n && b !in chain ensures m'.owner[b] == m.owner[b] {
      assert b !in chain[1..];
    }
  }

  /** File ino keeps its slots and gains the tops of |chain| levels. */
  ghost predicate Grown(m: Map, m': Map, ino: nat, level: nat, chain: seq<nat>) {
    && (forall l: nat, i: nat :: Tree(ino, l, i) in m'.at <==> Tree(ino, l, i) in m.at || (i == 0 && level <= l < level + |chain|))
    && (forall l: nat, i: nat :: Tree(ino, l, i) in m.at ==> m'.at[Tree(ino, l, i)] == m.at[Tree(ino, l, i)])
    && (forall k :: 0 <= k < |chain| ==> InSlot(m', Tree(ino, level + k, 0), chain[k]))
  }

  /** The slots after adoption, read off the owners. */
  lemma AdoptSlots(n: nat, m: Map, ino: nat, level: nat, chain: seq<nat>, m': Map)
    requires LostBlocks(n, m, chain) && m' == Adopt(m, ino, level, chain)
    requires forall l: nat, i: nat :: Tree(ino, l, i) in m.at ==> l < level
    ensures Grown(m, m', ino, level, chain)
  {
    AdoptOwners(n, m, ino, level, chain);
    forall k | 0 <= k < |chain|
      ensures InSlot(m', Tree(ino, level + k, 0), chain[k])
    {
      assert m'.owner[chain[k]] == Tree(ino, level + k, 0);
    }
    forall l: nat, i: nat
      ensures Tree(ino, l, i) in m.at ==> Tree(ino, l, i) in m'.at && m'.at[Tree(ino, l, i)] == m.at[Tree(ino, l, i)]
      ensures Tree(ino, l, i) in m'.at ==> Tree(ino, l, i) in m.at || (i == 0 && level <= l < level + |chain|)
      ensures i == 0 && level <= l < level + |chain| ==> Tree(ino, l, i) in m'.at
    {
      var s := Tree(ino, l, i);
      if s in m.at { assert m'.owner[m.at[s]] == s; }
      if s in m'.at { assert m'.owner[m'.at[s]] == s; }
      if i == 0 && level <= l < level + |chain| { assert InSlot(m', Tree(ino, level + (l - level), 0), chain[l - level]); }
    }
  }

  /** The indirect blocks written when levels are added: each refers to the previous top only. */
  ghost predicate Stacked(d: seq<Block>, r: nat, root: Word, chain: seq<nat>)
    requires Sized(d, r)
  {
    forall i :: 0 <= i < |chain| ==> chain[i] < |d| && d[chain[i]] == Put(Zeros(r), 0, TopOf(d, root, chain, i))
  }

  /** Root of the tree once the first i blocks of chain have been put on top. */
  ghost function TopOf(d: seq<Block>, root: Word, chain: seq<nat>, i: nat): Word
    requires i <= |chain| && |d| < TWO32
  {
    if i == 0 then root else if chain[i - 1] < |d| then chain[i - 1] else 0
  }

  /** Growing file ino to size': the new levels exist, off the old tree's top, and the
      inode says so. */
  ghost predicate Growth(d: seq<Block>, r: nat, m: Map, ino: nat, size': Word, chain: seq<nat>)
    requires Core(d, r, m)
  {
    && ino < NumInodes(d, r)
    && Size(d, r, ino) < size'
    && Levels(r, size') == Levels(r, Size(d, r, ino)) + |chain|
    && LostBlocks(|d|, m, chain)
    && Stacked(d, r, Root(d, r, ino), chain)
  }

  lemma GrownSlots(r: nat, m: Map, m': Map, ino: nat, size: nat, size': nat, n: nat)
    requires r >= 2 && size < size' && TreeSlots(r, m, ino, size)
    requires Levels(r, size') == Levels(r, size) + n
    requires forall l: nat, i: nat :: Tree(ino, l, i) in m'.at <==>
               Tree(ino, l, i) in m.at || (i == 0 && Levels(r, size) + 1 <= l < Levels(r, size) + 1 + n)
    ensures TreeSlots(r, m', ino, size')
  {
    forall l: nat, i: nat ensures TreeSlotOk(r, m', ino, size', l, i) {
      assert TreeSlotOk(r, m, ino, size, l, i);
      if Tree(ino, l, i) in m.at {
        UpMonotone(r, size - 1, size' - 1, l);
        if l == Levels(r, size) {
          TopIndex(r, size - 1, size);
          QuotientUnique(0, r, 0, 0);
        }
      } else if Tree(ino, l, i) in m'.at {
        QuotientUnique(0, r, 0, 0);
      }
    }
  }

  lemma StackRefers(d: seq<Block>, r: nat, m: Map, m': Map, ino: nat, size: nat, chain: seq<nat>, k: nat, root: Word)
    requires r >= 2 && Sized(d, r) && TreeSlots(r, m, ino, size) && k < |chain| && Stacked(d, r, root, chain)
    requires root == At(m, Tree(ino, Levels(r, size), 0))
    requires Grown(m, m', ino, Levels(r, size) + 1, chain)
    ensures Refers(d[chain[k]], r, m', ino, Levels(r, size) + 1 + k, 0)
  {
    var l := Levels(r, size) + k;
    forall j | 0 <= j < r ensures d[chain[k]][j] == At(m', Tree(ino, l, Kid(r, 0, j))) {
      assert Kid(r, 0, j) == j;
      assert TreeSlotOk(r, m, ino, size, l, j);
      if size > 0 { TopIndex(r, size - 1, size); }
      if j == 0 && k > 0 {
        assert InSlot(m', Tree(ino, Levels(r, size) + 1 + (k - 1), 0), chain[k - 1]);
      }
    }
  }

  lemma GrownRefs(d: seq<Block>, m: Map, d': seq<Block>, m': Map, r: nat, ino: nat, size: nat, chain: seq<nat>,
          root: Word)
    requires Shaped(d, r, m) && Shaped(d', r, m') && |d'| == |d| && NumInodeBlocks(d') == NumInodeBlocks(d)
    requires TreeSlots(r, m, ino, size) && TreeRefs(d, r, m, ino) && Stacked(d, r, root, chain)
    requires root == At(m, Tree(ino, Levels(r, size), 0))
    requires Grown(m, m', ino, Levels(r, size) + 1, chain)
    requires forall i :: 0 <= i < |chain| ==> chain[i] < |d| && d'[chain[i]] == d[chain[i]]
    requires forall l: nat, i: nat :: Tree(ino, l, i) in m.at ==> d'[m.at[Tree(ino, l, i)]] == d[m.at[Tree(ino, l, i)]]
    ensures TreeRefs(d', r, m', ino)
  {
    forall l: nat, i: nat ensures TreeRefsOk(d', r, m', ino, l, i) {
      assert TreeRefsOk(d, r, m, ino, l, i);
      if Tree(ino, l, i) in m.at {
        assert TreeSlotOk(r, m, ino, size, l, i);
        forall j | 0 <= j < r && l > 0
          ensures At(m', Tree(ino, l - 1, Kid(r, i, j))) == At(m, Tree(ino, l - 1, Kid(r, i, j)))
        {
          assert l - 1 < Levels(r, size) + 1;
        }
      } else if Tree(ino, l, i) in m'.at {
        StackRefers(d, r, m, m', ino, size, chain, l - Levels(r, size) - 1, root);
      }
    }
  }

  ghost function Padded(file: seq<Block>, r: nat, size: nat): seq<Block>
    requires |file| <= size
  {
    file + seq(size - |file|, _ => Zeros(r))
  }

  lemma GrownContent(d: seq<Block>, m: Map, d': seq<Block>, m': Map, r: nat, ino: nat, size': nat)
    requires Core(d, r, m) && Core(d', r, m') && |d'| == |d| && NumInodeBlocks(d') == NumInodeBlocks(d)
    requires ino < NumInodes(d, r) && FileOk(d, r, m, ino)
    requires Size(d', r, ino) == size' >= Size(d, r, ino)
    requires forall i: nat :: Tree(ino, 0, i) in m'.at <==> Tree(ino, 0, i) in m.at
    requires forall i: nat :: Tree(ino, 0, i) in m.at ==> m'.at[Tree(ino, 0, i)] == m.at[Tree(ino, 0, i)]
    requires forall i: nat :: Tree(ino, 0, i) in m.at ==> d'[m.at[Tree(ino, 0, i)]] == d[m.at[Tree(ino, 0, i)]]
    ensures File(d', r, m', ino) == Padded(File(d, r, m, ino), r, size')
  {
    forall i: nat | i < size'
      ensures Content(d', r, m', ino, i) == Padded(File(d, r, m, ino), r, size')[i]
    {
      assert TreeSlotOk(r, m, ino, Size(d, r, ino), 0, i);
      if Size(d, r, ino) > 0 { UpZero(r, Size(d, r, ino) - 1); }
    }
  }

  /** Only blocks of chain change owner, and they come to belong to the file. */
  ghost predicate GrownOwners(n: nat, m: Map, m': Map, ino: nat) {
    && Partition(n, m)
    && Partition(n, m')
    && m'.height == m.height
    && forall b :: 0 <= b < n && m'.owner[b] != m.owner[b] ==> m.owner[b].Lost? && InFile(m'.owner[b], ino)
  }

  lemma GrowMap(n: nat, m: Map, m': Map, r: nat, ino: nat, size: nat, chain: seq<nat>)
    requires r >= 2 && LostBlocks(n, m, chain) && TreeSlots(r, m, ino, size)
    requires m' == Adopt(m, ino, Levels(r, size) + 1, chain)
    ensures GrownOwners(n, m, m', ino)
    ensures Grown(m, m', ino, Levels(r, size) + 1, chain)
  {
    var L := Levels(r, size);
    NothingAboveRoot(r, m, ino, size);
    AdoptOwners(n, m, ino, L + 1, chain);
    AdoptSlots(n, m, ino, L + 1, chain, m');
    forall b | 0 <= b < n && m'.owner[b] != m.owner[b] ensures m.owner[b].Lost? && InFile(m'.owner[b], ino) {
      assert b in chain;
    }
  }

  lemma GrowDisk(d: seq<Block>, m: Map, d': seq<Block>, m': Map, r: nat, ino: nat, root': Word, size': Word)
    requires Core(d, r, m) && ino < NumInodes(d, r) && InodeBlockNo(r, ino) < |d|
    requires GrownOwners(|d|, m, m', ino)
    requires d' == d[InodeBlockNo(r, ino) := PutInode(d, r, ino, root', size')]
    ensures Core(d', r, m') && OnlyFile(d, m, d', m', r, ino)
    ensures Root(d', r, ino) == root' && Size(d', r, ino) == size'
    ensures forall b :: 0 <= b < |d| && Movable(m.owner[b]) ==> d'[b] == d[b]
  {
    InodeBlockOwner(d, r, m, ino);
    InodeWritten(d, r, ino, root', size', d');
    CoreFrame(d, m, d', m', r);
  }

  /** Growth keeps the invariant and appends zero blocks to the one file. */
  lemma GrowStep(d: seq<Block>, m: Map, d': seq<Block>, m': Map, r: nat, ino: nat, size': Word, chain: seq<nat>)
    requires Inv(d, r, m) && Growth(d, r, m, ino, size', chain)
    requires GrownOwners(|d|, m, m', ino) && Grown(m, m', ino, Levels(r, Size(d, r, ino)) + 1, chain)
    requires InodeBlockNo(r, ino) < |d|
    requires d' == d[InodeBlockNo(r, ino) := PutInode(d, r, ino, TopOf(d, Root(d, r, ino), chain, |chain|), size')]
    ensures Inv(d', r, m')
    ensures Store(d', r, m') == Store(d, r, m)[ino := Padded(File(d, r, m, ino), r, size')]
    ensures Root(d', r, ino) == TopOf(d, Root(d, r, ino), chain, |chain|) && Size(d', r, ino) == size'
  {
    assert FileOk(d, r, m, ino);
    GrowDisk(d, m, d', m', r, ino, TopOf(d, Root(d, r, ino), chain, |chain|), size');
    GrowFileStep(d, m, d', m', r, ino, chain);
    OneFileStep(d, m, d', m', r, ino);
  }

  lemma GrowFileStep(d: seq<Block>, m: Map, d': seq<Block>, m': Map, r: nat, ino: nat, chain: seq<nat>)
    requires Core(d, r, m) && Core(d', r, m') && |d'| == |d| && NumInodeBlocks(d') == NumInodeBlocks(d)
    requires ino < NumInodes(d, r) && FileOk(d, r, m, ino)
    requires Growth(d, r, m, ino, Size(d', r, ino), chain)
    requires Root(d', r, ino) == TopOf(d, Root(d, r, ino), chain, |chain|)
    requires Grown(m, m', ino, Levels(r, Size(d, r, ino)) + 1, chain)
    requires forall b :: 0 <= b < |d| && Movable(m.owner[b]) ==> d'[b] == d[b]
    ensures FileOk(d', r, m', ino)
    ensures File(d', r, m', ino) == Padded(File(d, r, m, ino), r, Size(d', r, ino))
  {
    forall l: nat, i: nat | Tree(ino, l, i) in m.at ensures d'[m.at[Tree(ino, l, i)]] == d[m.at[Tree(ino, l, i)]] {
      assert m.owner[m.at[Tree(ino, l, i)]] == Tree(ino, l, i);
    }
    assert m.owner[0] == Super by { assert m.at[Super] == 0; }
    GrownFile(d, m, d', m', r, ino, chain);
    GrownContent(d, m, d', m', r, ino, Size(d', r, ino));
  }

  lemma GrownFile(d: seq<Block>, m: Map, d': seq<Block>, m': Map, r: nat, ino: nat, chain: seq<nat>)
    requires Shaped(d, r, m) && Shaped(d', r, m') && |d'| == |d| && NumInodeBlocks(d') == NumInodeBlocks(d)
    requires ino < NumInodes(d, r) && FileOk(d, r, m, ino)
    requires Stacked(d, r, Root(d, r, ino), chain)
    requires Grown(m, m', ino, Levels(r, Size(d, r, ino)) + 1, chain)
    requires Root(d', r, ino) == TopOf(d, Root(d, r, ino), chain, |chain|)
    requires Size(d, r, ino) < Size(d', r, ino)
    requires Levels(r, Size(d', r, ino)) == Levels(r, Size(d, r, ino)) + |chain|
    requires forall i :: 0 <= i < |chain| ==> 0 < chain[i] < |d| && d'[chain[i]] == d[chain[i]]
    requires forall l: nat, i: nat :: Tree(ino, l, i) in m.at ==> d'[m.at[Tree(ino, l, i)]] == d[m.at[Tree(ino, l, i)]]
    ensures FileOk(d', r, m', ino)
  {
    var L := Levels(r, Size(d, r, ino));
    GrownSlots(r, m, m', ino, Size(d, r, ino), Size(d', r, ino), |chain|);
    GrownRefs(d, m, d', m', r, ino, Size(d, r, ino), chain, Root(d, r, ino));
    if chain != [] {
      assert InSlot(m', Tree(ino, L + 1 + (|chain| - 1), 0), chain[|chain| - 1]);
    }
  }

  // ---- while the levels are being added ----

  /** Between allocations: the files are still as they were in (d0, m0), and the blocks of
      chain, stacked on the old root, have only left the free list. */
  ghost predicate Growing(d0: seq<Block>, m0: Map, d: seq<Block>, m: Map, r: nat, ino: nat, chain: seq<nat>)
    requires Inv(d0, r, m0) && ino < NumInodes(d0, r)
  {
    && |d| == |d0| && Inv(d, r, m) && NumInodeBlocks(d) == NumInodeBlocks(d0)
    && Store(d, r, m) == Store(d0, r, m0)
    && InodeBlockNo(r, ino) < |d| && d[InodeBlockNo(r, ino)] == d0[InodeBlockNo(r, ino)]
    && LostBlocks(|d|, m, chain)
    && Stacked(d, r, Root(d0, r, ino), chain)
    && TookChain(m0, m, chain)
  }

  ghost predicate TookChain(m0: Map, m: Map, chain: seq<nat>) {
    && |m.owner| == |m0.owner|
    && forall b :: 0 <= b < |m.owner| ==> if b in chain then OnFreeList(m0.owner[b]) else m.owner[b] == m0.owner[b]
  }

  lemma GrowingStart(d: seq<Block>, m: Map, r: nat, ino: nat)
    requires Inv(d, r, m) && ino < NumInodes(d, r)
    ensures Growing(d, m, d, m, r, ino, [])
  {
    InodeBlockOwner(d, r, m, ino);
  }

  /** Contents of a block that is not in use are irrelevant. */
  lemma LostContents(d: seq<Block>, m: Map, r: nat, f: nat, blk: Block)
    requires Inv(d, r, m) && f < |d| && m.owner[f].Lost? && |blk| == r
    ensures Inv(d[f := blk], r, m) && NumInodeBlocks(d[f := blk]) == NumInodeBlocks(d)
    ensures Store(d[f := blk], r, m) == Store(d, r, m)
  {
    assert m.owner[0] == Super by { assert m.at[Super] == 0; }
    CoreFrame(d, m, d[f := blk], m, r);
    FilesFrame(d, m, d[f := blk], m, r);
  }

  /** One more level: a new block f that refers to the old top. */
  lemma GrowOne(d0: seq<Block>, m0: Map, d: seq<Block>, m: Map, d1: seq<Block>, m1: Map, r: nat, ino: nat,
          chain: seq<nat>, f: Word)
    requires Inv(d0, r, m0) && ino < NumInodes(d0, r) && Growing(d0, m0, d, m, r, ino, chain)
    requires AllocStep(d, r, m, d1, m1, f) && Inv(d1, r, m1) && Store(d1, r, m1) == Store(d, r, m)
    ensures var tib := Put(Zeros(r), 0, TopOf(d, Root(d0, r, ino), chain, |chain|));
      Growing(d0, m0, d1[f := tib], m1, r, ino, chain + [f])
    ensures |d1| == |d| && TopOf(d1, Root(d0, r, ino), chain + [f], |chain| + 1) == f
  {
    hide Files, FreeList, Store;
    var root := Root(d0, r, ino);
    var tib := Put(Zeros(r), 0, TopOf(d, root, chain, |chain|));
    var d2, chain' := d1[f := tib], chain + [f];
    LostContents(d1, m1, r, f, tib);
    InodeBlockOwner(d, r, m, ino);
    GrowStack(d, d2, m, r, root, chain, f, tib);
    ChainGrows(|d|, m0, m, m1, chain, f);
  }

  lemma ChainGrows(n: nat, m0: Map, m: Map, m1: Map, chain: seq<nat>, f: nat)
    requires LostBlocks(n, m, chain) && Partition(n, m1) && TookChain(m0, m, chain)
    requires f < n && OnFreeList(m.owner[f]) && m1.owner == m.owner[f := Lost(f)]
    ensures LostBlocks(n, m1, chain + [f]) && TookChain(m0, m1, chain + [f])
  {
    var chain' := chain + [f];
    assert f !in chain;
    forall b | 0 <= b < n
      ensures if b in chain' then OnFreeList(m0.owner[b]) else m1.owner[b] == m0.owner[b]
    {
      if b == f { assert chain'[|chain|] == f; }
      if b in chain { assert b in chain'; }
    }
  }

  lemma GrowStack(d: seq<Block>, d2: seq<Block>, m: Map, r: nat, root: Word, chain: seq<nat>, f: Word, tib: Block)
    requires Sized(d, r) && Sized(d2, r) && |d| == |d2| == |m.owner| && Stacked(d, r, root, chain)
    requires f < |d| && d2[f] == tib == Put(Zeros(r), 0, TopOf(d, root, chain, |chain|))
    requires forall i :: 0 <= i < |chain| ==> chain[i] < |d| && m.owner[chain[i]].Lost?
    requires !m.owner[f].Lost?
    requires forall b :: 0 <= b < |d| && m.owner[b].Lost? ==> d2[b] == d[b]
    ensures Stacked(d2, r, root, chain + [f])
  {
    var chain' := chain + [f];
    forall i | 0 <= i < |chain'|
      ensures chain'[i] < |d2| && d2[chain'[i]] == Put(Zeros(r), 0, TopOf(d2, root, chain', i))
    {
      assert TopOf(d2, root, chain', i) == TopOf(d, root, chain, i);
    }
  }
}
