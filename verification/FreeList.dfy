/** Taking a block from, and returning a block to, the on-disk free list. */
module FreeLists {
  import opened Radix
  import opened Layout

  /** Largest k in [1, i) whose reference is nonzero; 0 if there is none. */
  function LastUsed(blk: Block, i: nat): (k: nat)
    requires i <= |blk|
    ensures k == 0 || (1 <= k < i && blk[k] != 0)
    ensures forall j :: k < j < i && 1 <= j ==> blk[j] == 0
  {
    if i <= 1 then 0 else if blk[i - 1] != 0 then i - 1 else LastUsed(blk, i - 1)
  }

  /** Smallest k in [i, |blk|) whose reference is zero; |blk| if there is none. */
  function FirstEmpty(blk: Block, i: nat): (k: nat)
    requires i <= |blk|
    ensures i <= k <= |blk|
    ensures k < |blk| ==> blk[k] == 0
    ensures forall j :: i <= j < k ==> blk[j] != 0
    decreases |blk| - i
  {
    if i == |blk| || blk[i] == 0 then i else FirstEmpty(blk, i + 1)
  }

  datatype Allocated = Full | Got(block: nat, disk: seq<Block>)

  /** The first free block and the disk without it; Full if the list is empty. */
  function Alloc(d: seq<Block>, r: nat): Allocated
    requires Sized(d, r) && Top(d) < |d|
  {
    var b := Top(d);
    if b == 0 then Full else
      var k := LastUsed(d[b], r);
      if k == 0 then Got(b, d[0 := Put(d[0], 1, d[b][0])])
      else Got(d[b][k], d[b := Put(d[b], k, 0)])
  }

  ghost function AllocMap(d: seq<Block>, r: nat, m: Map): Map
    requires Core(d, r, m) && m.height > 0
  {
    TopIsNode(d, r, m);
    var b := Top(d);
    var k := LastUsed(d[b], r);
    if k == 0 then Move(m, b, Lost(b)).(height := m.height - 1)
    else EntryInRange(d, r, m, k); Move(m, d[b][k], Lost(d[b][k]))
  }

  lemma TopIsNode(d: seq<Block>, r: nat, m: Map)
    requires Core(d, r, m)
    ensures Top(d) == 0 <==> m.height == 0
    ensures Top(d) < |d|
    ensures m.height > 0 ==> m.owner[Top(d)] == FreeNode(m.height - 1) && FreeNodeHolds(d[Top(d)], r, m, m.height - 1)
  {
    if m.height > 0 {
      assert FreeNode(m.height - 1) in m.at;
      assert m.owner[0] == Super;
      assert FreeNodeOk(d, r, m, m.height - 1);
    }
  }

  lemma EntryInRange(d: seq<Block>, r: nat, m: Map, k: nat)
    requires Core(d, r, m) && m.height > 0 && 1 <= k < r
    requires Top(d) < |d| && d[Top(d)][k] != 0
    ensures d[Top(d)][k] < |d| && m.owner[d[Top(d)][k]] == FreeEntry(m.height - 1, k)
  {
    TopIsNode(d, r, m);
  }

  predicate OnFreeList(s: Slot) {
    s.FreeNode? || s.FreeEntry?
  }

  /** Blocks whose contents the free-list operations may change. */
  predicate FreeOwned(s: Slot) {
    s.Super? || s.FreeNode? || s.FreeEntry?
  }

  /** Free-list nodes i and below are unaffected when a slot that they do not use changes. */
  lemma NodeFrame(d: seq<Block>, m: Map, d': seq<Block>, m': Map, r: nat, i: nat)
    requires Sized(d, r) && Partition(|d|, m) && Sized(d', r) && Partition(|d'|, m')
    requires FreeNodeOk(d, r, m, i)
    requires FreeNode(i) in m'.at ==> FreeNode(i) in m.at && d'[m'.at[FreeNode(i)]] == d[m.at[FreeNode(i)]]
    requires i > 0 ==> At(m', FreeNode(i - 1)) == At(m, FreeNode(i - 1))
    requires forall j :: 1 <= j < r ==> At(m', FreeEntry(i, j)) == At(m, FreeEntry(i, j))
    ensures FreeNodeOk(d', r, m', i)
  {
  }

  /** Free-list node i does not mention slot s. */
  predicate Unmentioned(s: Slot, i: nat) {
    s != FreeNode(i) && (i > 0 ==> s != FreeNode(i - 1)) && !(s.FreeEntry? && s.i == i)
  }

  /** A node that mentions neither end of a move stays as it is. */
  lemma MoveNode(d: seq<Block>, m: Map, d': seq<Block>, m': Map, r: nat, b: nat, t: Slot, i: nat)
    requires Sized(d, r) && Sized(d', r) && |d'| == |d| && Moved(|d|, m, m', b, t)
    requires FreeNodeOk(d, r, m, i) && Unmentioned(m.owner[b], i) && Unmentioned(t, i)
    requires FreeNode(i) in m.at ==> d'[m.at[FreeNode(i)]] == d[m.at[FreeNode(i)]]
    ensures FreeNodeOk(d', r, m', i)
  {
    NodeFrame(d, m, d', m', r, i);
  }

  lemma AllocTopNode(d: seq<Block>, r: nat, m: Map, m': Map, d': seq<Block>)
    requires Core(d, r, m) && m.height > 0
    requires Top(d) < |d| && LastUsed(d[Top(d)], r) == 0
    requires Moved(|d|, m, m', Top(d), Lost(Top(d))) && m'.height == m.height - 1
    requires d' == d[0 := Put(d[0], 1, d[Top(d)][0])]
    ensures Core(d', r, m')
    ensures m'.height == 0 ==> d'[Top(d)] == Zeros(r)
  {
    hide FixedPart;
    TopIsNode(d, r, m);
    var b, h := Top(d), m.height - 1;
    MoveFixed(d, m, d', m', b, Lost(b));
    forall j | 1 <= j < r ensures FreeEntry(h, j) !in m.at {
      assert d[b][j] == 0;
    }
    assert Next(m', h) == Next(m, h);
    forall i: nat ensures FreeNodeOk(d', r, m', i) {
      assert FreeNodeOk(d, r, m, i);
      if i < h { MoveNode(d, m, d', m', r, b, Lost(b), i); }
    }
    assert m'.height == 0 ==> d[b] == Zeros(r);
  }

  lemma AllocEntry(d: seq<Block>, r: nat, m: Map, m': Map, d': seq<Block>, k: nat)
    requires Core(d, r, m) && m.height > 0
    requires Top(d) < |d| && k == LastUsed(d[Top(d)], r) > 0
    requires d[Top(d)][k] < |d| && Moved(|d|, m, m', d[Top(d)][k], Lost(d[Top(d)][k])) && m'.height == m.height
    requires d' == d[Top(d) := Put(d[Top(d)], k, 0)]
    ensures Core(d', r, m')
  {
    hide FixedPart;
    TopIsNode(d, r, m);
    EntryInRange(d, r, m, k);
    var b, h := Top(d), m.height - 1;
    MoveFixed(d, m, d', m', d[b][k], Lost(d[b][k]));
    assert Next(m', m'.height) == Next(m, m.height);
    forall i: nat ensures FreeNodeOk(d', r, m', i) {
      assert FreeNodeOk(d, r, m, i);
      if i < h { MoveNode(d, m, d', m', r, d[b][k], Lost(d[b][k]), i); }
      if i == h { assert Next(m', h) == Next(m, h); }
    }
  }

  /** One block leaves the free list and no other block changes owner, or contents unless
      it belongs to the list. The last block to leave the list is all zeros. */
  ghost predicate AllocStep(d: seq<Block>, r: nat, m: Map, d': seq<Block>, m': Map, f: nat)
    requires Core(d, r, m)
  {
    && f < |d| && (m.owner[f].FreeNode? || m.owner[f].FreeEntry?)
    && |d'| == |d| && Core(d', r, m')
    && m'.owner == m.owner[f := Lost(f)]
    && NumInodeBlocks(d') == NumInodeBlocks(d)
    && (forall b :: 0 <= b < |d| && !FreeOwned(m.owner[b]) ==> d'[b] == d[b])
    && (m'.height == 0 ==> d'[f] == Zeros(r))
  }

  lemma AllocTakesNode(d: seq<Block>, r: nat, m: Map)
    requires Core(d, r, m) && m.height > 0 && Top(d) < |d| && LastUsed(d[Top(d)], r) == 0
    ensures Alloc(d, r).Got? && AllocStep(d, r, m, Alloc(d, r).disk, AllocMap(d, r, m), Alloc(d, r).block)
  {
    hide FreeList, FixedPart;
    TopIsNode(d, r, m);
    SuperAtZero(d, r, m);
    var f, d', m' := Alloc(d, r).block, Alloc(d, r).disk, AllocMap(d, r, m);
    NotLost(d, r, m, f);
    MoveMoves(|d|, m, f, Lost(f), m.height - 1);
    AllocTopNode(d, r, m, m', d');
  }

  lemma AllocTakesEntry(d: seq<Block>, r: nat, m: Map)
    requires Core(d, r, m) && m.height > 0 && Top(d) < |d| && LastUsed(d[Top(d)], r) > 0
    ensures Alloc(d, r).Got? && AllocStep(d, r, m, Alloc(d, r).disk, AllocMap(d, r, m), Alloc(d, r).block)
  {
    hide FreeList, FixedPart;
    TopIsNode(d, r, m);
    SuperAtZero(d, r, m);
    var k := LastUsed(d[Top(d)], r);
    var f, d', m' := Alloc(d, r).block, Alloc(d, r).disk, AllocMap(d, r, m);
    EntryInRange(d, r, m, k);
    NotLost(d, r, m, f);
    MoveMoves(|d|, m, f, Lost(f), m.height);
    AllocEntry(d, r, m, m', d', k);
  }

  lemma NotLost(d: seq<Block>, r: nat, m: Map, f: nat)
    requires Core(d, r, m) && f < |d| && !m.owner[f].Lost?
    ensures Lost(f) !in m.at
  {
  }

  lemma SuperAtZero(d: seq<Block>, r: nat, m: Map)
    requires Core(d, r, m)
    ensures m.owner[0] == Super
  {
    assert m.at[Super] == 0;
  }

  /** Allocation fails exactly when no block is free, and is otherwise such a step. */
  lemma AllocCore(d: seq<Block>, r: nat, m: Map)
    requires Core(d, r, m)
    ensures Top(d) < |d|
    ensures Alloc(d, r).Full? <==> m.height == 0
    ensures m.height > 0 ==> AllocStep(d, r, m, Alloc(d, r).disk, AllocMap(d, r, m), Alloc(d, r).block)
  {
    hide FreeList, FixedPart, AllocStep, AllocMap, Partition;
    TopIsNode(d, r, m);
    if m.height > 0 {
      if LastUsed(d[Top(d)], r) == 0 { AllocTakesNode(d, r, m); } else { AllocTakesEntry(d, r, m); }
    }
  }

  /** The disk after block target has been zeroed and put on the free list. */
  function Free(d: seq<Block>, r: nat, target: nat): seq<Block>
    requires Sized(d, r) && target < |d| && Top(d) < |d|
  {
    var d1 := d[target := Zeros(r)];
    var b := Top(d);
    if b == 0 then d1[0 := Put(d[0], 1, target)] else
      var i := FirstEmpty(d1[b], 1);
      if i != r then d1[b := Put(d1[b], i, target)]
      else d1[0 := Put(d[0], 1, target)][target := Put(Zeros(r), 0, b)]
  }

  /** Does the freed block become a new node, or an entry of the first node? */
  predicate BecomesNode(d: seq<Block>, r: nat)
    requires Sized(d, r) && Top(d) < |d|
  {
    Top(d) == 0 || FirstEmpty(d[Top(d)], 1) == r
  }

  ghost function FreeMap(d: seq<Block>, r: nat, m: Map, target: nat): Map
    requires Core(d, r, m) && target < |d|
  {
    TopIsNode(d, r, m);
    if BecomesNode(d, r) then Move(m, target, FreeNode(m.height)).(height := m.height + 1)
    else Move(m, target, FreeEntry(m.height - 1, FirstEmpty(d[Top(d)], 1)))
  }

  /** A new node is the zeroed block with a reference to the old first node. */
  lemma FreeDiskAsNode(d: seq<Block>, r: nat, target: nat)
    requires Sized(d, r) && 0 < target < |d| && Top(d) < |d| && target != Top(d) && BecomesNode(d, r)
    ensures Free(d, r, target) == d[0 := Put(d[0], 1, target)][target := Put(Zeros(r), 0, Top(d))]
  {
    assert Put(Zeros(r), 0, 0) == Zeros(r);
  }

  /** One block joins the free list and no other block changes owner, or contents unless
      it belongs to the list. */
  ghost predicate FreeStep(d: seq<Block>, r: nat, m: Map, d': seq<Block>, m': Map, target: nat)
    requires Core(d, r, m) && target < |d|
  {
    && |d'| == |d| && Core(d', r, m')
    && FreeOwned(m'.owner[target]) && m'.owner == m.owner[target := m'.owner[target]]
    && NumInodeBlocks(d') == NumInodeBlocks(d)
    && forall b :: 0 <= b < |d| && b != target && !FreeOwned(m.owner[b]) ==> d'[b] == d[b]
  }

  lemma FreeAsNode(d: seq<Block>, r: nat, m: Map, m': Map, d': seq<Block>, target: nat)
    requires Core(d, r, m) && 0 < target < |d| && (m.owner[target].Tree? || m.owner[target].Lost?)
    requires Top(d) < |d| && BecomesNode(d, r)
    requires Moved(|d|, m, m', target, FreeNode(m.height)) && m'.height == m.height + 1
    requires d' == d[0 := Put(d[0], 1, target)][target := Put(Zeros(r), 0, Top(d))]
    ensures FreeStep(d, r, m, d', m', target)
  {
    hide FixedPart;
    TopIsNode(d, r, m);
    MoveFixed(d, m, d', m', target, FreeNode(m.height));
    assert m.owner[0] == Super;
    forall i: nat ensures FreeNodeOk(d', r, m', i) {
      assert FreeNodeOk(d, r, m, i);
      if i < m.height { MoveNode(d, m, d', m', r, target, FreeNode(m.height), i); }
      if i == m.height { assert Next(m', i) == Next(m, i); }
    }
  }

  lemma FreeAsEntry(d: seq<Block>, r: nat, m: Map, m': Map, d': seq<Block>, target: nat, i: nat)
    requires Core(d, r, m) && 0 < target < |d| && (m.owner[target].Tree? || m.owner[target].Lost?)
    requires Top(d) < |d| && m.height > 0 && i == FirstEmpty(d[Top(d)], 1) < r
    requires Moved(|d|, m, m', target, FreeEntry(m.height - 1, i)) && m'.height == m.height
    requires d' == d[target := Zeros(r)][Top(d) := Put(d[Top(d)], i, target)]
    ensures FreeStep(d, r, m, d', m', target)
  {
    hide FixedPart;
    TopIsNode(d, r, m);
    var h := m.height - 1;
    MoveFixed(d, m, d', m', target, FreeEntry(h, i));
    assert m.owner[0] == Super;
    assert Next(m', m'.height) == Next(m, m.height);
    forall k: nat ensures FreeNodeOk(d', r, m', k) {
      assert FreeNodeOk(d, r, m, k);
      if k < h { MoveNode(d, m, d', m', r, target, FreeEntry(h, i), k); }
      if k == h { assert Next(m', h) == Next(m, h); }
    }
  }

  lemma FirstEmptyIsVacant(d: seq<Block>, r: nat, m: Map)
    requires Core(d, r, m)
    ensures Top(d) < |d|
    ensures !BecomesNode(d, r) ==> m.height > 0 && FreeEntry(m.height - 1, FirstEmpty(d[Top(d)], 1)) !in m.at
    ensures FreeNode(m.height) !in m.at
  {
    TopIsNode(d, r, m);
    if !BecomesNode(d, r) {
      var i := FirstEmpty(d[Top(d)], 1);
      assert d[Top(d)][i] == At(m, FreeEntry(m.height - 1, i)) == 0;
      assert m.owner[0] == Super by { assert m.at[Super] == 0; }
    }
  }

  lemma FreeCoreNode(d: seq<Block>, r: nat, m: Map, target: nat)
    requires Core(d, r, m) && 0 < target < |d| && (m.owner[target].Tree? || m.owner[target].Lost?)
    requires Top(d) < |d| && Top(d) != target && BecomesNode(d, r)
    requires FreeNode(m.height) !in m.at
    ensures FreeStep(d, r, m, Free(d, r, target), FreeMap(d, r, m, target), target)
  {
    MoveMoves(|d|, m, target, FreeNode(m.height), m.height + 1);
    FreeDiskAsNode(d, r, target);
    FreeAsNode(d, r, m, FreeMap(d, r, m, target), Free(d, r, target), target);
  }

  lemma FreeCoreEntry(d: seq<Block>, r: nat, m: Map, target: nat)
    requires Core(d, r, m) && 0 < target < |d| && (m.owner[target].Tree? || m.owner[target].Lost?)
    requires Top(d) < |d| && Top(d) != target && !BecomesNode(d, r)
    requires m.height > 0 && FreeEntry(m.height - 1, FirstEmpty(d[Top(d)], 1)) !in m.at
    ensures FreeStep(d, r, m, Free(d, r, target), FreeMap(d, r, m, target), target)
  {
    var i := FirstEmpty(d[Top(d)], 1);
    MoveMoves(|d|, m, target, FreeEntry(m.height - 1, i), m.height);
    FreeAsEntry(d, r, m, FreeMap(d, r, m, target), Free(d, r, target), target, i);
  }

  /** Freeing adds one block to the list and changes nothing else. */
  lemma FreeCore(d: seq<Block>, r: nat, m: Map, target: nat)
    requires Core(d, r, m) && target < |d| && (m.owner[target].Tree? || m.owner[target].Lost?)
    ensures target > 0 && Top(d) < |d|
    ensures FreeStep(d, r, m, Free(d, r, target), FreeMap(d, r, m, target), target)
  {
    FirstEmptyIsVacant(d, r, m);
    TopIsNode(d, r, m);
    assert m.owner[0] == Super by { assert m.at[Super] == 0; }
    if BecomesNode(d, r) {
      FreeCoreNode(d, r, m, target);
    } else {
      FreeCoreEntry(d, r, m, target);
    }
  }

  /** "Freeing" a hole, that is block 0, is harmless exactly when the free list is empty;
      otherwise it wipes the superblock's inode count. */
  lemma FreeHole(d: seq<Block>, r: nat, m: Map)
    requires Core(d, r, m) && NumInodeBlocks(d) > 0
    ensures Top(d) < |d| && |Free(d, r, 0)| == |d| && Sized(Free(d, r, 0), r)
    ensures Top(d) == 0 ==> Free(d, r, 0) == d
    ensures Top(d) != 0 ==> NumInodeBlocks(Free(d, r, 0)) != NumInodeBlocks(d)
  {
    TopIsNode(d, r, m);
    if Top(d) == 0 {
      assert Put(d[0], 1, 0) == d[0];
    } else {
      assert Top(d) > NumInodeBlocks(d) by {
        assert InodeBlock(Top(d)) !in m.at;
      }
    }
  }
}
