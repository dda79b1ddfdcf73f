/** Returning whole subtrees to the free list. */
module TreeFree {
  import opened Radix
  import opened Layout
  import opened FreeLists
  import opened TreeSteps
  import opened TreeGrowth

  /** Slot s lies in the subtree of Tree(ino, l, idx). */
  ghost predicate InSubtree(r: nat, s: Slot, ino: nat, l: nat, idx: nat)
    requires r >= 2
  {
    InFile(s, ino) && s.level <= l && Up(r, s.idx, l - s.level) == idx
  }

  /** Slot s lies below one of the first i references of Tree(ino, l, idx). */
  ghost predicate InKids(r: nat, s: Slot, ino: nat, l: nat, idx: nat, i: nat)
    requires r >= 2
  {
    InFile(s, ino) && s.level < l && var k := Up(r, s.idx, l - 1 - s.level); k / r == idx && k % r < i
  }

  ghost function SubtreeBlocks(r: nat, m: Map, ino: nat, l: nat, idx: nat): set<nat>
    requires r >= 2
  {
    set b: nat | b < |m.owner| && InSubtree(r, m.owner[b], ino, l, idx)
  }

  ghost function KidsBlocks(r: nat, m: Map, ino: nat, l: nat, idx: nat, i: nat): set<nat>
    requires r >= 2
  {
    set b: nat | b < |m.owner| && InKids(r, m.owner[b], ino, l, idx, i)
  }

  lemma NextKid(r: nat, s: Slot, ino: nat, l: nat, idx: nat, i: nat)
    requires r >= 2 && l > 0 && i < r
    ensures InKids(r, s, ino, l, idx, i + 1) <==> InKids(r, s, ino, l, idx, i) || InSubtree(r, s, ino, l - 1, Kid(r, idx, i))
    ensures InSubtree(r, s, ino, l - 1, Kid(r, idx, i)) ==> !InKids(r, s, ino, l, idx, i)
  {
    KidDigits(r, idx, i);
    if InFile(s, ino) && s.level < l {
      KidOfDigits(r, Up(r, s.idx, l - 1 - s.level));
    }
  }

  lemma AllKids(r: nat, s: Slot, ino: nat, l: nat, idx: nat)
    requires r >= 2
    ensures InSubtree(r, s, ino, l, idx) <==> s == Tree(ino, l, idx) || InKids(r, s, ino, l, idx, r)
  {
    if InFile(s, ino) && s.level < l {
      UpStep(r, s.idx, l - 1 - s.level);
    }
    if InFile(s, ino) && s.level == l {
      UpZero(r, s.idx);
    }
    if s == Tree(ino, l, idx) {
      UpZero(r, idx);
    }
  }

  lemma KidsGrow(r: nat, m: Map, ino: nat, l: nat, idx: nat, i: nat)
    requires r >= 2 && l > 0 && i < r
    ensures KidsBlocks(r, m, ino, l, idx, i + 1)
         == KidsBlocks(r, m, ino, l, idx, i) + SubtreeBlocks(r, m, ino, l - 1, Kid(r, idx, i))
    ensures KidsBlocks(r, m, ino, l, idx, i) !! SubtreeBlocks(r, m, ino, l - 1, Kid(r, idx, i))
  {
    forall b: nat | b < |m.owner|
      ensures InKids(r, m.owner[b], ino, l, idx, i + 1)
         <==> InKids(r, m.owner[b], ino, l, idx, i) || InSubtree(r, m.owner[b], ino, l - 1, Kid(r, idx, i))
      ensures InSubtree(r, m.owner[b], ino, l - 1, Kid(r, idx, i)) ==> !InKids(r, m.owner[b], ino, l, idx, i)
    {
      NextKid(r, m.owner[b], ino, l, idx, i);
    }
  }

  lemma WholeSubtree(n: nat, r: nat, m: Map, ino: nat, l: nat, idx: nat, b: nat)
    requires r >= 2 && Partition(n, m) && b < n && m.owner[b] == Tree(ino, l, idx)
    ensures SubtreeBlocks(r, m, ino, l, idx) == KidsBlocks(r, m, ino, l, idx, r) + {b}
    ensures b !in KidsBlocks(r, m, ino, l, idx, r)
  {
    forall x: nat | x < n
      ensures InSubtree(r, m.owner[x], ino, l, idx) <==> x == b || InKids(r, m.owner[x], ino, l, idx, r)
    {
      AllKids(r, m.owner[x], ino, l, idx);
    }
  }

  /** The subtree of Tree(ino, l, idx) is complete: occupied slots hang together and
      references are exact. */
  ghost predicate Intact(d: seq<Block>, r: nat, m: Map, ino: nat, l: nat, idx: nat)
    requires Shaped(d, r, m)
  {
    forall k: nat, i: nat :: IntactAt(d, r, m, ino, l, idx, k, i)
  }

  ghost predicate IntactAt(d: seq<Block>, r: nat, m: Map, ino: nat, l: nat, idx: nat, k: nat, i: nat)
    requires Shaped(d, r, m)
  {
    Tree(ino, k, i) in m.at && InSubtree(r, Tree(ino, k, i), ino, l, idx) ==>
      && TreeRefsOk(d, r, m, ino, k, i)
      && (k < l ==> Tree(ino, k + 1, Parent(r, i)) in m.at)
  }

  lemma IntactFile(d: seq<Block>, r: nat, m: Map, ino: nat)
    requires Core(d, r, m) && ino < NumInodes(d, r) && FileOk(d, r, m, ino)
    ensures Intact(d, r, m, ino, Levels(r, Size(d, r, ino)), 0)
    ensures forall b: nat :: b < |d| && InFile(m.owner[b], ino) ==> b in SubtreeBlocks(r, m, ino, Levels(r, Size(d, r, ino)), 0)
  {
    var size := Size(d, r, ino);
    forall k: nat, i: nat ensures IntactAt(d, r, m, ino, Levels(r, size), 0, k, i) {
      assert TreeSlotOk(r, m, ino, size, k, i);
      assert TreeRefsOk(d, r, m, ino, k, i);
    }
    forall b: nat | b < |d| && InFile(m.owner[b], ino)
      ensures InSubtree(r, m.owner[b], ino, Levels(r, size), 0)
    {
      var s := m.owner[b];
      assert TreeSlotOk(r, m, ino, size, s.level, s.idx);
      TopAncestor(r, size, s.level, s.idx);
    }
  }

  lemma TopAncestor(r: nat, size: nat, l: nat, idx: nat)
    requires r >= 2 && size > 0 && l <= Levels(r, size) && idx <= Up(r, size - 1, l)
    ensures Up(r, idx, Levels(r, size) - l) == 0
  {
    UpUp(r, size - 1, l, Levels(r, size) - l);
    UpMonotone(r, idx, Up(r, size - 1, l), Levels(r, size) - l);
    TopIndex(r, size - 1, size);
  }

  /** If the subtree's top slot is vacant, so are all others in it. */
  lemma {:induction false} VacantSubtree(d: seq<Block>, r: nat, m: Map, ino: nat, l: nat, idx: nat, t: nat, k: nat,
          i: nat)
    requires Shaped(d, r, m) && Intact(d, r, m, ino, l, idx)
    requires t < l && k <= t && Up(r, Up(r, i, t - k), l - t) == idx
    requires Tree(ino, k, i) in m.at
    ensures Tree(ino, t, Up(r, i, t - k)) in m.at
    decreases t - k
  {
    if k == t {
      UpZero(r, i);
    } else {
      UpUp(r, i, t - k, l - t);
      assert IntactAt(d, r, m, ino, l, idx, k, i);
      UpUp(r, i, 1, t - k - 1);
      UpStep(r, i, 0);
      UpZero(r, i);
      VacantSubtree(d, r, m, ino, l, idx, t, k + 1, i / r);
    }
  }

  lemma VacantKid(d: seq<Block>, r: nat, m: Map, ino: nat, l: nat, idx: nat, j: nat)
    requires Shaped(d, r, m) && Partition(|d|, m) && Intact(d, r, m, ino, l, idx) && l > 0 && j < r
    requires Tree(ino, l - 1, Kid(r, idx, j)) !in m.at
    ensures SubtreeBlocks(r, m, ino, l - 1, Kid(r, idx, j)) == {}
  {
    var c := Kid(r, idx, j);
    KidDigits(r, idx, j);
    forall b: nat | b < |d| ensures !InSubtree(r, m.owner[b], ino, l - 1, c) {
      if InSubtree(r, m.owner[b], ino, l - 1, c) {
        var s := m.owner[b];
        UpStep(r, c, 0);
        UpZero(r, c);
        VacantSubtree(d, r, m, ino, l, idx, l - 1, s.level, s.idx);
      }
    }
  }

  // ---- releasing blocks ----

  /** The blocks in gone went to the free list; all others kept owner and contents. */
  ghost predicate Released(d: seq<Block>, m: Map, d': seq<Block>, m': Map, r: nat, gone: set<nat>) {
    && Core(d, r, m) && Core(d', r, m')
    && |d'| == |d| && NumInodeBlocks(d') == NumInodeBlocks(d)
    && (forall b :: b in gone ==> b < |d| && m.owner[b].Tree? && FreeOwned(m'.owner[b]))
    && (forall b :: 0 <= b < |d| && b !in gone ==> m'.owner[b] == m.owner[b])
    && (forall b :: 0 <= b < |d| && b !in gone && !FreeOwned(m.owner[b]) ==> d'[b] == d[b])
  }

  lemma ReleasedMore(d: seq<Block>, m: Map, d1: seq<Block>, m1: Map, d2: seq<Block>, m2: Map, r: nat, g1: set<nat>,
          g2: set<nat>)
    requires Released(d, m, d1, m1, r, g1) && Released(d1, m1, d2, m2, r, g2)
    ensures Released(d, m, d2, m2, r, g1 + g2)
  {
  }

  lemma ReleasedOne(d: seq<Block>, m: Map, d': seq<Block>, m': Map, r: nat, b: nat)
    requires Core(d, r, m) && b < |d| && m.owner[b].Tree? && FreeStep(d, r, m, d', m', b)
    ensures Released(d, m, d', m', r, {b})
  {
  }

  /** No block of a subtree has come, gone or changed. */
  ghost predicate SubtreeKept(d: seq<Block>, m: Map, d': seq<Block>, m': Map, r: nat, ino: nat, l: nat, idx: nat)
    requires r >= 2 && Shaped(d, r, m) && Shaped(d', r, m')
  {
    forall s: Slot :: InSubtree(r, s, ino, l, idx) ==> SlotKept(d, m, d', m', r, s)
  }

  ghost predicate SlotKept(d: seq<Block>, m: Map, d': seq<Block>, m': Map, r: nat, s: Slot)
    requires Shaped(d, r, m) && Shaped(d', r, m')
  {
    && (s in m'.at <==> s in m.at)
    && (s in m.at ==> m'.at[s] == m.at[s] && d'[m.at[s]] == d[m.at[s]])
  }

  /** A subtree disjoint from what was released is still intact. */
  lemma StillIntact(d: seq<Block>, m: Map, d': seq<Block>, m': Map, r: nat, gone: set<nat>, ino: nat, l: nat,
          idx: nat, i: nat)
    requires Released(d, m, d', m', r, gone) && Intact(d, r, m, ino, l, idx) && l > 0 && i < r
    requires gone == KidsBlocks(r, m, ino, l, idx, i)
    ensures Intact(d', r, m', ino, l - 1, Kid(r, idx, i))
    ensures SubtreeBlocks(r, m', ino, l - 1, Kid(r, idx, i)) == SubtreeBlocks(r, m, ino, l - 1, Kid(r, idx, i))
    ensures Tree(ino, l - 1, Kid(r, idx, i)) in m'.at <==> Tree(ino, l - 1, Kid(r, idx, i)) in m.at
    ensures Tree(ino, l - 1, Kid(r, idx, i)) in m.at ==>
              m'.at[Tree(ino, l - 1, Kid(r, idx, i))] == m.at[Tree(ino, l - 1, Kid(r, idx, i))]
  {
    var c := Kid(r, idx, i);
    forall s: Slot | InSubtree(r, s, ino, l - 1, c) ensures SlotKept(d, m, d', m', r, s) {
      KeptSlot(d, m, d', m', r, gone, ino, l, idx, i, s);
    }
    assert SubtreeKept(d, m, d', m', r, ino, l - 1, c);
    SameBlocks(|d|, d, m, d', m', r, ino, l - 1, c);
    UpZero(r, c);
    assert SlotKept(d, m, d', m', r, Tree(ino, l - 1, c));
    hide SubtreeKept, SubtreeBlocks;
    KeptIntact(d, m, d', m', r, ino, l, idx, i);
  }

  lemma SameBlocks(n: nat, d: seq<Block>, m: Map, d': seq<Block>, m': Map, r: nat, ino: nat, l: nat, idx: nat)
    requires r >= 2 && Shaped(d, r, m) && Shaped(d', r, m') && Partition(n, m) && Partition(n, m')
    requires SubtreeKept(d, m, d', m', r, ino, l, idx)
    ensures SubtreeBlocks(r, m', ino, l, idx) == SubtreeBlocks(r, m, ino, l, idx)
  {
    forall b: nat | b < n ensures InSubtree(r, m'.owner[b], ino, l, idx) <==> InSubtree(r, m.owner[b], ino, l, idx) {
      if InSubtree(r, m'.owner[b], ino, l, idx) { assert SlotKept(d, m, d', m', r, m'.owner[b]); }
      if InSubtree(r, m.owner[b], ino, l, idx) { assert SlotKept(d, m, d', m', r, m.owner[b]); }
    }
  }

  lemma KeptIntact(d: seq<Block>, m: Map, d': seq<Block>, m': Map, r: nat, ino: nat, l: nat, idx: nat, i: nat)
    requires r >= 2 && l > 0 && i < r && Shaped(d, r, m) && Shaped(d', r, m')
    requires Intact(d, r, m, ino, l, idx) && SubtreeKept(d, m, d', m', r, ino, l - 1, Kid(r, idx, i))
    ensures Intact(d', r, m', ino, l - 1, Kid(r, idx, i))
  {
    var c, t := Kid(r, idx, i), l - 1;
    forall k: nat, x: nat ensures IntactAt(d', r, m', ino, t, c, k, x) {
      if Tree(ino, k, x) in m'.at && InSubtree(r, Tree(ino, k, x), ino, t, c) {
        assert SlotKept(d, m, d', m', r, Tree(ino, k, x));
        SubtreeOfKid(r, ino, l, idx, i, k, x);
        assert IntactAt(d, r, m, ino, l, idx, k, x);
        if k < t {
          UpOneLess(r, x, t - k);
          assert SlotKept(d, m, d', m', r, Tree(ino, k + 1, x / r));
        }
        KidsKept(d, m, d', m', r, ino, t, c, k, x);
      }
    }
  }

  lemma SubtreeOfKid(r: nat, ino: nat, l: nat, idx: nat, i: nat, k: nat, x: nat)
    requires r >= 2 && l > 0 && i < r && InSubtree(r, Tree(ino, k, x), ino, l - 1, Kid(r, idx, i))
    ensures InSubtree(r, Tree(ino, k, x), ino, l, idx)
  {
    UpStep(r, x, l - 1 - k);
    KidDigits(r, idx, i);
  }

  lemma UpOneLess(r: nat, x: nat, n: nat)
    requires r >= 2 && n > 0
    ensures Up(r, x / r, n - 1) == Up(r, x, n)
  {
    UpUp(r, x, 1, n - 1);
    UpStep(r, x, 0);
    UpZero(r, x);
  }

  /** A slot below the i-th reference is not among those below earlier references. */
  lemma KeptSlot(d: seq<Block>, m: Map, d': seq<Block>, m': Map, r: nat, gone: set<nat>, ino: nat, l: nat, idx: nat,
          i: nat, s: Slot)
    requires Released(d, m, d', m', r, gone) && l > 0 && i < r
    requires gone == KidsBlocks(r, m, ino, l, idx, i)
    requires InSubtree(r, s, ino, l - 1, Kid(r, idx, i))
    ensures SlotKept(d, m, d', m', r, s)
  {
    NextKid(r, s, ino, l, idx, i);
    if s in m.at {
      assert m.at[s] !in gone;
      assert m'.owner[m.at[s]] == s;
    }
    if s in m'.at {
      assert m'.at[s] !in gone;
      assert m.owner[m'.at[s]] == s;
    }
  }

  /** The children of a node in the subtree are in the subtree. */
  lemma KidsKept(d: seq<Block>, m: Map, d': seq<Block>, m': Map, r: nat, ino: nat, l: nat, idx: nat, k: nat, x: nat)
    requires r >= 2 && Shaped(d, r, m) && Shaped(d', r, m') && InSubtree(r, Tree(ino, k, x), ino, l, idx)
    requires SubtreeKept(d, m, d', m', r, ino, l, idx)
    ensures k > 0 ==> forall j :: 0 <= j < r ==> At(m', Tree(ino, k - 1, Kid(r, x, j))) == At(m, Tree(ino, k - 1, Kid(r, x, j)))
  {
    if k > 0 {
      forall j | 0 <= j < r ensures At(m', Tree(ino, k - 1, Kid(r, x, j))) == At(m, Tree(ino, k - 1, Kid(r, x, j))) {
        KidDigits(r, x, j);
        UpOneLess(r, Kid(r, x, j), l - (k - 1));
        assert SlotKept(d, m, d', m', r, Tree(ino, k - 1, Kid(r, x, j)));
      }
    }
  }

  /** A single data block is its own subtree. */
  lemma LeafSubtree(n: nat, r: nat, m: Map, ino: nat, idx: nat, b: nat)
    requires r >= 2 && Partition(n, m) && b < n && m.owner[b] == Tree(ino, 0, idx)
    ensures SubtreeBlocks(r, m, ino, 0, idx) == {b}
  {
    WholeSubtree(n, r, m, ino, 0, idx, b);
  }

  lemma NoKidsYet(r: nat, m: Map, ino: nat, l: nat, idx: nat)
    requires r >= 2
    ensures KidsBlocks(r, m, ino, l, idx, 0) == {}
  {
  }

  /** The references held by the top of an intact subtree. */
  lemma TopRefs(d: seq<Block>, r: nat, m: Map, ino: nat, l: nat, idx: nat, b: nat)
    requires Shaped(d, r, m) && Intact(d, r, m, ino, l, idx) && l > 0
    requires Tree(ino, l, idx) in m.at && m.at[Tree(ino, l, idx)] == b
    ensures forall j :: 0 <= j < r ==> d[b][j] == At(m, Tree(ino, l - 1, Kid(r, idx, j)))
  {
    UpZero(r, idx);
    assert IntactAt(d, r, m, ino, l, idx, l, idx);
  }

  /** Everything that belonged to file ino, and only that, went to the free list. */
  ghost predicate Returned(m: Map, m': Map, ino: nat) {
    && |m'.owner| == |m.owner|
    && forall b :: 0 <= b < |m.owner| ==>
         if InFile(m.owner[b], ino) then OnFreeList(m'.owner[b]) else m'.owner[b] == m.owner[b]
  }

  /** Once a file's tree is released and its inode cleared, the file is empty. */
  lemma FileEmptied(d: seq<Block>, m: Map, d1: seq<Block>, m1: Map, d2: seq<Block>, r: nat, ino: nat)
    requires Inv(d, r, m) && ino < NumInodes(d, r) && Size(d, r, ino) > 0
    requires Released(d, m, d1, m1, r, SubtreeBlocks(r, m, ino, Levels(r, Size(d, r, ino)), 0))
    requires InodeBlockNo(r, ino) < |d1| && ino < NumInodes(d1, r)
    requires d2 == d1[InodeBlockNo(r, ino) := PutInode(d1, r, ino, 0, 0)]
    ensures Inv(d2, r, m1)
    ensures Store(d2, r, m1) == Store(d, r, m)[ino := []]
    ensures Returned(m, m1, ino)
  {
    assert FileOk(d, r, m, ino);
    IntactFile(d, r, m, ino);
    InodeBlockOwner(d1, r, m1, ino);
    InodeWritten(d1, r, ino, 0, 0, d2);
    CoreFrame(d1, m1, d2, m1, r);
    assert m1.owner[0] == Super by { assert m1.at[Super] == 0; }
    forall b | 0 <= b < |d| ensures InFile(m.owner[b], ino) ==> OnFreeList(m1.owner[b]) {
      if InFile(m.owner[b], ino) { assert b != 0 by { assert m.at[Super] == 0; } }
    }
    NoSlots(|d|, m1, ino);
    EmptyFile(d2, r, m1, ino);
    OthersKept(d, m, d1, m1, d2, r, ino);
  }

  lemma NoSlots(n: nat, m: Map, ino: nat)
    requires Partition(n, m) && forall b :: 0 <= b < n ==> !InFile(m.owner[b], ino)
    ensures forall l: nat, idx: nat :: Tree(ino, l, idx) !in m.at
  {
    assert forall s :: s in m.at ==> m.owner[m.at[s]] == s;
  }

  lemma EmptyFile(d: seq<Block>, r: nat, m: Map, ino: nat)
    requires Core(d, r, m) && ino < NumInodes(d, r) && Size(d, r, ino) == 0 && Root(d, r, ino) == 0
    requires forall l: nat, idx: nat :: Tree(ino, l, idx) !in m.at
    ensures FileOk(d, r, m, ino) && File(d, r, m, ino) == []
  {
    forall l: nat, idx: nat ensures TreeSlotOk(r, m, ino, 0, l, idx) {}
    forall l: nat, idx: nat ensures TreeRefsOk(d, r, m, ino, l, idx) {}
  }

  lemma InThatFile(r: nat, m: Map, ino: nat, l: nat)
    requires r >= 2
    ensures forall b :: b in SubtreeBlocks(r, m, ino, l, 0) ==> b < |m.owner| && InFile(m.owner[b], ino)
  {
  }

  lemma OtherKept(d: seq<Block>, m: Map, d1: seq<Block>, m1: Map, d2: seq<Block>, r: nat, ino: nat, x: nat)
    requires Inv(d, r, m) && Core(d1, r, m1) && Core(d2, r, m1) && ino < NumInodes(d, r)
    requires Released(d, m, d1, m1, r, SubtreeBlocks(r, m, ino, Levels(r, Size(d, r, ino)), 0))
    requires |d2| == |d| && NumInodeBlocks(d2) == NumInodeBlocks(d)
    requires InodesKept(d1, d2, r, ino)
    requires forall b :: 0 <= b < |d| && m1.owner[b].Tree? ==> d2[b] == d1[b]
    requires x < NumInodes(d, r) && x != ino
    ensures FileOk(d2, r, m1, x) && File(d2, r, m1, x) == File(d, r, m, x)
  {
    hide Files, FreeList, FixedPart, SubtreeBlocks, FileOk, Partition;
    FileInOrder(d, r, m, x);
    InodeBlockOwner(d, r, m, x);
    InThatFile(r, m, ino, Levels(r, Size(d, r, ino)));
    OneFileFrame(d, m, d2, m1, r, x);
  }

  lemma OthersKept(d: seq<Block>, m: Map, d1: seq<Block>, m1: Map, d2: seq<Block>, r: nat, ino: nat)
    requires Inv(d, r, m) && Core(d1, r, m1) && Core(d2, r, m1) && ino < NumInodes(d, r)
    requires Released(d, m, d1, m1, r, SubtreeBlocks(r, m, ino, Levels(r, Size(d, r, ino)), 0))
    requires |d2| == |d| && NumInodeBlocks(d2) == NumInodeBlocks(d)
    requires InodesKept(d1, d2, r, ino)
    requires forall b :: 0 <= b < |d| && m1.owner[b].Tree? ==> d2[b] == d1[b]
    requires FileOk(d2, r, m1, ino) && File(d2, r, m1, ino) == []
    ensures Inv(d2, r, m1)
    ensures Store(d2, r, m1) == Store(d, r, m)[ino := []]
  {
    forall x: nat | x < NumInodes(d, r) && x != ino
      ensures FileOk(d2, r, m1, x) && File(d2, r, m1, x) == File(d, r, m, x)
    {
      OtherKept(d, m, d1, m1, d2, r, ino, x);
    }
    forall x: nat, l: nat, idx: nat | Tree(x, l, idx) in m1.at ensures x < NumInodes(d, r) {
      var b := m1.at[Tree(x, l, idx)];
      assert m1.owner[b] == Tree(x, l, idx);
      assert m.owner[b] == Tree(x, l, idx);
      assert Tree(x, l, idx) in m.at;
    }
  }

  // ---- how many levels a file to be freed has ----

  /** Capacity after j multiplications, in 32-bit arithmetic. */
  function Capacity(r: nat, j: nat): Word {
    Pow(r, j) % TWO32
  }

  /** The loop that looks for the number of levels stops exactly for files that fit in a
      power of the branching factor below 2^32. */
  lemma CapacitySearchEnds(k: nat, size: Word)
    requires 1 <= k < 32
    ensures (exists j: nat :: j >= 1 && Capacity(Pow(2, k), j) >= size) <==> size <= Pow(2, k * (31 / k))
  {
    hide Pow, Capacity;
    var q := 31 / k;
    Quotient31(k);
    forall j: nat | j >= 1 && Capacity(Pow(2, k), j) >= size ensures size <= Pow(2, k * q) {
      CapacityBound(k, q, j);
    }
    if size <= Pow(2, k * q) {
      CapacityIs(k, q);
      assert Capacity(Pow(2, k), q) >= size;
    }
  }

  /** With 256 references in a block, it never ends for 2^24 + 1 blocks. */
  lemma CapacityExample(j: nat)
    requires j >= 1
    ensures Capacity(Pow(2, 8), j) < 0x100_0001
  {
    CapacitySearchEnds(8, 0x100_0001);
    PowAdd(2, 8, 8);
    PowAdd(2, 16, 8);
    assert Pow(2, 8) == 256;
    assert Pow(2, 24) == 0x100_0000;
  }

  lemma Quotient31(k: nat)
    requires 1 <= k < 32
    ensures 31 / k >= 1 && 0 <= k * (31 / k) <= 31 < k * (31 / k + 1)
  {
    var q, e := 31 / k, 31 % k;
    assert 31 == k * q + e;
    if q <= 0 { MulMonotone(k, q, 0); }
  }

  /** No capacity is more than the largest power below 2^32. */
  lemma CapacityBound(k: nat, q: nat, j: nat)
    requires k >= 1 && 0 <= k * q <= 31 < k * (q + 1)
    ensures Capacity(Pow(2, k), j) <= Pow(2, k * q)
  {
    hide Pow, Capacity;
    CapacityIs(k, j);
    if j <= q {
      MulMonotone(k, j, q);
      PowMonotone(2, k * j, k * q);
    } else {
      MulMonotone(k, q + 1, j);
      PowPositive(2, k * q);
    }
  }

  lemma CapacityIs(k: nat, j: nat)
    requires k >= 1
    ensures Capacity(Pow(2, k), j) == if k * j < 32 then Pow(2, k * j) else 0
  {
    PowPow(2, k, j);
    PowPositive(2, k * j);
    Pow2Of32();
    if k * j < 32 {
      PowMonotone(2, k * j + 1, 32);
      QuotientUnique(Pow(2, k * j), TWO32, 0, Pow(2, k * j));
    } else {
      PowAdd(2, 32, k * j - 32);
      QuotientUnique(Pow(2, k * j), TWO32, Pow(2, k * j - 32), 0);
    }
  }

  /** The level search: while the capacity is too small, one more multiplication neither
      overshoots nor wraps around. */
  lemma CapacityStep(k: nat, size: Word, j: nat)
    requires 1 <= k < 32 && size <= Pow(2, k * (31 / k)) && j >= 1
    requires Capacity(Pow(2, k), j) < size && k * j < 32
    ensures k * (j + 1) < 32
    ensures Capacity(Pow(2, k), j) == Pow(Pow(2, k), j)
    ensures Capacity(Pow(2, k), j + 1) == Pow(Pow(2, k), j + 1) == (Capacity(Pow(2, k), j) * Pow(2, k)) % TWO32
  {
    hide Pow, Capacity;
    CapacityIs(k, j);
    PowPow(2, k, j);
    var q := 31 / k;
    assert j < q by {
      if j >= q {
        MulMonotone(k, q, j);
        PowMonotone(2, k * q, k * j);
      }
    }
    assert k * q <= 31;
    MulMonotone(k, j + 1, q);
    CapacityNext(k, j);
  }

  lemma PowNext(b: nat, e: nat)
    ensures Pow(b, e + 1) == Pow(b, e) * b
  {
  }

  lemma CapacityNext(k: nat, j: nat)
    requires k >= 1 && k * (j + 1) < 32 && k * j < 32
    ensures Capacity(Pow(2, k), j + 1) == Pow(Pow(2, k), j + 1) == (Capacity(Pow(2, k), j) * Pow(2, k)) % TWO32
  {
    hide Pow, Capacity;
    CapacityFits(k, j);
    CapacityFits(k, j + 1);
    CapacityWord(Pow(2, k), j + 1);
    PowNext(Pow(2, k), j);
  }

  lemma CapacityFits(k: nat, j: nat)
    requires k >= 1 && k * j < 32
    ensures Capacity(Pow(2, k), j) == Pow(Pow(2, k), j)
  {
    hide Pow, Capacity;
    CapacityIs(k, j);
    PowPow(2, k, j);
    assert k * j == j * k;
  }

  lemma CapacityWord(r: nat, j: nat)
    ensures Capacity(r, j) == Pow(r, j) % TWO32
  {
  }

  /** The smallest sufficient level is the depth of the file's tree. */
  lemma CapacityLevels(r: nat, size: nat, level: nat)
    requires r >= 2 && size >= 2 && level >= 1
    requires Pow(r, level) >= size && (level > 1 ==> Pow(r, level - 1) < size)
    ensures level == Levels(r, size)
  {
    PowPositive(r, level);
    DivSmall(size - 1, Pow(r, level));
    DigitsExact(r, size - 1, level);
    PowPositive(r, level - 1);
    DigitsExact(r, size - 1, level - 1);
    DivMonotone(Pow(r, level - 1), size - 1, Pow(r, level - 1));
    QuotientUnique(Pow(r, level - 1), Pow(r, level - 1), 1, 0);
  }

  lemma FirstCapacity(k: nat)
    requires 1 <= k < 32
    ensures 0 < Pow(2, k) < TWO32
    ensures Capacity(Pow(2, k), 1) == Pow(2, k) == Pow(Pow(2, k), 1)
  {
    CapacityIs(k, 1);
    Pow2Of32();
    PowPositive(2, k);
    PowMonotone(2, k + 1, 32);
    assert Pow(Pow(2, k), 1) == Pow(2, k) * Pow(Pow(2, k), 0);
  }

  lemma EmptyHasNoSlots(r: nat, m: Map, ino: nat)
    requires r >= 2 && TreeSlots(r, m, ino, 0)
    ensures forall l: nat, idx: nat :: Tree(ino, l, idx) !in m.at
  {
    forall l: nat, idx: nat ensures Tree(ino, l, idx) !in m.at {
      assert TreeSlotOk(r, m, ino, 0, l, idx);
    }
  }

  /** An empty file owns no block. */
  lemma NothingToReturn(d: seq<Block>, r: nat, m: Map, ino: nat)
    requires Inv(d, r, m) && ino < NumInodes(d, r) && Size(d, r, ino) == 0
    ensures Returned(m, m, ino)
    ensures Store(d, r, m)[ino := []] == Store(d, r, m)
  {
    assert FileOk(d, r, m, ino);
    EmptyHasNoSlots(r, m, ino);
    assert File(d, r, m, ino) == [];
  }

  /** The cleared inode block, after the tree went to the free list. */
  lemma ClearedInode(d: seq<Block>, m: Map, d1: seq<Block>, m1: Map, r: nat, ino: nat, gone: set<nat>)
    requires Inv(d, r, m) && ino < NumInodes(d, r) && Released(d, m, d1, m1, r, gone)
    ensures InodeBlockNo(r, ino) < |d| == |d1| && |d[InodeBlockNo(r, ino)]| == r
    ensures ino < NumInodes(d1, r)
    ensures Put(Put(d[InodeBlockNo(r, ino)], InodeWord(r, ino) + 1, 0), InodeWord(r, ino), 0) == PutInode(d1, r, ino, 0, 0)
  {
    InodeBlockOwner(d, r, m, ino);
    assert InodeBlockNo(r, ino) !in gone;
  }
}
