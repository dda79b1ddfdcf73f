/** Whole runs of the tree block store against a plain list of block files on a disk of limited size. */
module TreeRuns {
  import opened Radix
  import opened Layout
  import opened FreeLists
  import opened TreeSteps
  import opened TreeSpace
  import opened TreeGrowth
  import opened TreeLevels
  import opened TreeWalk
  import opened TreeFree
  import opened TreeDisks
  import opened TreeCreate

  datatype Op =
    | Put(ino: Word, off: Word, blk: Block)
    | Get(ino: Word, off: Word)
    | Truncate(ino: Word)

  /** NoSpace: the write found too few free blocks. Endless: the search for the levels of the file to be emptied
      does not end. */
  datatype Reply = Ok | Error | NoSpace | Endless | Data(blk: Block) | OldSize(n: nat)

  // ---- the simple form ----

  /** A file: its blocks, which of them have been written, and how much of the disk it takes. */
  datatype PlainFile = PlainFile(blocks: seq<Block>, written: set<nat>, used: nat)

  datatype Plain = Plain(files: seq<PlainFile>, free: nat)

  /** A file has a block at a place of its tree if that is above a block written, or leftmost on an
      indirect level. */
  ghost predicate HasNode(r: nat, levels: nat, written: set<nat>, l: nat, idx: nat)
    requires r > 0
  {
    l <= levels && ((l >= 1 && idx == 0) || exists w :: w in written && Above(r, w, l, idx))
  }

  ghost predicate Above(r: nat, w: nat, l: nat, idx: nat)
    requires r > 0
  {
    Up(r, w, l) == idx
  }

  /** Places without a block on the way to block off, at levels 0 to l. */
  ghost function Missing(r: nat, levels: nat, written: set<nat>, off: nat, l: nat): nat
    requires r > 0
  {
    (if HasNode(r, levels, written, l, Up(r, off, l)) then 0 else 1) + (if l == 0 then 0 else Missing(r, levels, written, off, l - 1))
  }

  /** Blocks that writing block off takes: one for each new level, and one for each place missing
      below them. */
  ghost function Need(r: nat, f: PlainFile, off: nat): nat
    requires r >= 2
  {
    var levels := Levels(r, SizeAfter(|f.blocks|, off));
    NewLevels(r, |f.blocks|, off) + Missing(r, levels, f.written, off, levels)
  }

  ghost predicate NoRoom(s: Plain, r: nat, op: Op)
    requires r >= 2
  {
    op.Put? && op.ino < |s.files| && Need(r, s.files[op.ino], op.off) > s.free
  }

  /** Bits of an index below r */
  function Bits(r: nat): (k: nat)
    ensures r >= 2 ==> k >= 1
  {
    if r < 2 then 0 else 1 + Bits(r / 2)
  }

  lemma {:induction false} BitsOfPow(k: nat)
    ensures Bits(Pow(2, k)) == k
  {
    if k > 0 {
      BitsOfPow(k - 1);
      PowPositive(2, k - 1);
    }
  }

  /** The file is larger than the largest power of r below 2^32. */
  predicate TooLarge(s: Plain, r: nat, op: Op)
    requires r >= 2
  {
    op.Truncate? && op.ino < |s.files| && |s.files[op.ino].blocks| > Pow(2, Bits(r) * (31 / Bits(r)))
  }

  ghost function After(s: Plain, r: nat, op: Op): (s': Plain)
    requires r >= 2
    ensures |s'.files| == |s.files|
  {
    if op.ino >= |s.files| || NoRoom(s, r, op) || TooLarge(s, r, op) then s else
    var f := s.files[op.ino];
    match op
    case Put(ino, off, blk) =>
      var need := Need(r, f, off);
      Plain(s.files[ino := PlainFile(Extended(f.blocks, r, off + 1)[off := blk], f.written + {off}, f.used + need)], s.free - need)
    case Get(_, _) => s
    case Truncate(ino) => Plain(s.files[ino := PlainFile([], {}, 0)], s.free + f.used)
  }

  ghost function Answer(s: Plain, r: nat, op: Op): Reply
    requires r >= 2
  {
    if op.ino >= |s.files| then Error
    else if NoRoom(s, r, op) then NoSpace
    else if TooLarge(s, r, op) then Endless
    else
    match op
    case Put(_, _, _) => Ok
    case Get(ino, off) => if off < |s.files[ino].blocks| then Data(s.files[ino].blocks[off]) else Error
    case Truncate(ino) => OldSize(|s.files[ino].blocks|)
  }

  ghost function Final(s: Plain, r: nat, ops: seq<Op>): (s': Plain)
    requires r >= 2
    ensures |s'.files| == |s.files|
  {
    if ops == [] then s else After(Final(s, r, ops[..|ops| - 1]), r, ops[|ops| - 1])
  }

  ghost function Answers(s: Plain, r: nat, ops: seq<Op>): (a: seq<Reply>)
    requires r >= 2
    ensures |a| == |ops|
  {
    if ops == [] then []
    else Answers(s, r, ops[..|ops| - 1]) + [Answer(Final(s, r, ops[..|ops| - 1]), r, ops[|ops| - 1])]
  }

  // ---- no space is ever lost ----

  ghost function UsedBy(files: seq<PlainFile>): nat {
    if files == [] then 0 else files[0].used + UsedBy(files[1..])
  }

  lemma {:induction false} UsedAfter(files: seq<PlainFile>, i: nat, f: PlainFile)
    requires i < |files|
    ensures UsedBy(files[i := f]) + files[i].used == UsedBy(files) + f.used
  {
    if i > 0 {
      UsedAfter(files[1..], i - 1, f);
      assert files[i := f][1..] == files[1..][i - 1 := f];
    } else {
      assert files[0 := f][1..] == files[1..];
    }
  }

  /** Free blocks and those of all files add up to the same at all times. */
  lemma {:induction false} SpaceConserved(s: Plain, r: nat, ops: seq<Op>)
    requires r >= 2
    ensures Final(s, r, ops).free + UsedBy(Final(s, r, ops).files) == s.free + UsedBy(s.files)
  {
    if ops != [] {
      var n := |ops| - 1;
      SpaceConserved(s, r, ops[..n]);
      var s1, op := Final(s, r, ops[..n]), ops[n];
      if op.ino < |s1.files| && !NoRoom(s1, r, op) {
        UsedAfter(s1.files, op.ino, After(s1, r, op).files[op.ino]);
      }
    }
  }

  // ---- requests within what 32-bit sizes allow ----

  predicate Fits(op: Op, r: nat) {
    op.Put? ==> |op.blk| == r && op.off + 1 < TWO32
  }

  ghost predicate SizesFit(s: Plain) {
    |s.files| < TWO32 && forall i :: 0 <= i < |s.files| ==> |s.files[i].blocks| < TWO32
  }

  lemma FitsStay(s: Plain, r: nat, op: Op)
    requires r >= 2 && SizesFit(s) && Fits(op, r)
    ensures SizesFit(After(s, r, op))
  {
    hide NoRoom, Need, TooLarge;
  }

  // ---- stores on which no write has run out of space ----

  ghost predicate Rooted(d: seq<Block>, r: nat, m: Map)
    requires Inv(d, r, m)
  {
    && (forall b :: 0 <= b < |d| ==> !m.owner[b].Lost?)
    && forall ino: nat :: ino < NumInodes(d, r) ==> RootedAt(d, r, ino)
  }

  ghost predicate RootedAt(d: seq<Block>, r: nat, ino: nat)
    requires Sized(d, r) && NumInodeBlocks(d) < |d| && ino < NumInodes(d, r)
  {
    Size(d, r, ino) > 0 ==> Root(d, r, ino) != 0
  }

  /** A file with a hole for a root owns no block at all. */
  lemma RootedIffOwns(d: seq<Block>, r: nat, m: Map, ino: nat)
    requires Inv(d, r, m) && ino < NumInodes(d, r) && Size(d, r, ino) > 0
    ensures Root(d, r, ino) != 0 <==> exists b :: 0 <= b < |d| && InSome(m, b, ino)
  {
    assert FileOk(d, r, m, ino);
    var size := Size(d, r, ino);
    var top := Tree(ino, Levels(r, size), 0);
    if Root(d, r, ino) != 0 {
      assert InSome(m, m.at[top], ino);
    }
    forall b | 0 <= b < |d| && InSome(m, b, ino) ensures Root(d, r, ino) != 0 {
      var s := m.owner[b];
      RootedIffReached(d, r, m, ino, s.level, s.idx);
    }
  }

  ghost predicate InSome(m: Map, b: nat, ino: nat) {
    b < |m.owner| && m.owner[b].Tree? && m.owner[b].ino == ino
  }

  lemma RootedIffReached(d: seq<Block>, r: nat, m: Map, ino: nat, l: nat, idx: nat)
    requires Inv(d, r, m) && ino < NumInodes(d, r) && Size(d, r, ino) > 0 && Tree(ino, l, idx) in m.at
    ensures Root(d, r, ino) != 0
  {
    assert FileOk(d, r, m, ino);
    var L := Levels(r, Size(d, r, ino));
    assert TreeSlotOk(r, m, ino, Size(d, r, ino), l, idx);
    TopAncestor(r, Size(d, r, ino), l, idx);
    if l < L {
      IntactFile(d, r, m, ino);
      UpUp(r, idx, L - l, 1);
      AncestorsOccupied(r, m, ino, Size(d, r, ino), l, idx);
    } else {
      UpZero(r, idx);
    }
    OccupiedNotZero(d, r, m, Tree(ino, L, 0));
  }

  lemma OccupiedNotZero(d: seq<Block>, r: nat, m: Map, s: Slot)
    requires Core(d, r, m) && !s.Super? && s in m.at
    ensures At(m, s) != 0
  {
    CoreShape(d, r, m);
    assert m.owner[m.at[s]] == s;
  }

  lemma {:induction false} AncestorsOccupied(r: nat, m: Map, ino: nat, size: nat, l: nat, idx: nat)
    requires r >= 2 && TreeSlots(r, m, ino, size) && Tree(ino, l, idx) in m.at && l <= Levels(r, size)
    ensures Tree(ino, Levels(r, size), Up(r, idx, Levels(r, size) - l)) in m.at
    decreases Levels(r, size) - l
  {
    UpZero(r, idx);
    if l < Levels(r, size) {
      assert TreeSlotOk(r, m, ino, size, l, idx);
      AncestorsOccupied(r, m, ino, size, l + 1, idx / r);
      UpOneLess(r, idx, Levels(r, size) - l);
    }
  }

  lemma RootedAfterWrite(d: seq<Block>, m: Map, d': seq<Block>, m': Map, r: nat, ino: nat, off: nat, blk: Block)
    requires Inv(d, r, m) && Rooted(d, r, m) && Inv(d', r, m') && |d'| == |d|
    requires ino < NumInodes(d, r) && Store(d', r, m') == Written(Store(d, r, m), r, ino, off, blk)
    requires Took(m, m', ino, false) && Tree(ino, 0, off) in m'.at
    ensures Rooted(d', r, m')
  {
    forall x: nat | x < NumInodes(d', r) ensures RootedAt(d', r, x) {
      assert |Store(d', r, m')[x]| == Size(d', r, x);
      if x == ino {
        if Size(d', r, x) > 0 { RootedIffReached(d', r, m', ino, 0, off); }
      } else {
        assert |Store(d, r, m)[x]| == Size(d, r, x);
        assert RootedAt(d, r, x);
        StillRooted(d, m, d', m', r, ino, x);
      }
    }
  }

  lemma StillRooted(d: seq<Block>, m: Map, d': seq<Block>, m': Map, r: nat, ino: nat, x: nat)
    requires Inv(d, r, m) && Inv(d', r, m') && |d'| == |d|
    requires x < NumInodes(d, r) && x < NumInodes(d', r) && x != ino && Size(d', r, x) == Size(d, r, x)
    requires RootedAt(d, r, x)
    requires Took(m, m', ino, false) || Returned(m, m', ino)
    ensures RootedAt(d', r, x)
  {
    if Size(d, r, x) > 0 {
      RootedIffOwns(d, r, m, x);
      var b :| 0 <= b < |d| && InSome(m, b, x);
      assert InSome(m', b, x);
      RootedIffOwns(d', r, m', x);
    }
  }

  lemma RootedAfterTruncate(d: seq<Block>, m: Map, d': seq<Block>, m': Map, r: nat, ino: nat)
    requires Inv(d, r, m) && Rooted(d, r, m) && Inv(d', r, m') && |d'| == |d|
    requires ino < NumInodes(d, r) && Store(d', r, m') == Store(d, r, m)[ino := []]
    requires Returned(m, m', ino)
    ensures Rooted(d', r, m')
  {
    forall x: nat | x < NumInodes(d', r) ensures RootedAt(d', r, x) {
      assert |Store(d', r, m')[x]| == Size(d', r, x);
      if x != ino {
        assert |Store(d, r, m)[x]| == Size(d, r, x);
        assert RootedAt(d, r, x);
        StillRooted(d, m, d', m', r, ino, x);
      }
    }
  }

  // ---- what a disk holds, in the simple form ----

  /** The file takes exactly the places it should. */
  ghost predicate Exact(r: nat, m: Map, ino: nat, f: PlainFile)
    requires r >= 2
  {
    && (forall w :: w in f.written ==> w < |f.blocks|)
    && forall l: nat, idx: nat :: Tree(ino, l, idx) in m.at <==> HasNode(r, Levels(r, |f.blocks|), f.written, l, idx)
  }

  ghost predicate FileModel(s: seq<seq<Block>>, r: nat, m: Map, ino: nat, f: PlainFile)
    requires r >= 2
  {
    ino < |s| && f.blocks == s[ino] && f.used == |FileBlocks(m, ino)| && Exact(r, m, ino, f)
  }

  ghost predicate Models(s: Plain, d: seq<Block>, r: nat, m: Map)
    requires Inv(d, r, m)
  {
    && |s.files| == NumInodes(d, r) && s.free == FreeCount(m)
    && forall i :: 0 <= i < |s.files| ==> FileModel(Store(d, r, m), r, m, i, s.files[i])
  }

  /** The disk's count of the blocks a write needs is that of the simple form. */
  lemma NeedIs(d: seq<Block>, r: nat, m: Map, ino: nat, f: PlainFile, off: nat)
    requires Inv(d, r, m) && ino < NumInodes(d, r) && |f.blocks| == Size(d, r, ino) && Exact(r, m, ino, f)
    ensures Needed(r, m, ino, |f.blocks|, off) == Need(r, f, off)
  {
    var size := |f.blocks|;
    var low, levels := Levels(r, size), Levels(r, SizeAfter(size, off));
    if off >= size { DepthGrows(r, size, off); }
    hide Files, FreeList, FixedPart, Partition, Levels;
    forall k: nat | k <= levels
      ensures OnPath(r, m, ino, off, low, k) <==> HasNode(r, levels, f.written, k, Up(r, off, k))
    {
      PlaceSame(r, m, ino, f, low, levels, off, k);
    }
    MissingIs(r, m, ino, f, off, low, levels, levels);
  }

  lemma PlaceSame(r: nat, m: Map, ino: nat, f: PlainFile, low: nat, levels: nat, off: nat, k: nat)
    requires r >= 2 && Exact(r, m, ino, f) && low == Levels(r, |f.blocks|) <= levels && k <= levels
    ensures OnPath(r, m, ino, off, low, k) <==> HasNode(r, levels, f.written, k, Up(r, off, k))
  {
    if k > low {
      forall w | w in f.written ensures Up(r, w, k) == 0 {
        TopIndex(r, w, |f.blocks|);
        UpUp(r, w, low, k - low);
        PowPositive(r, k - low);
        DivSmall(0, Pow(r, k - low));
      }
    }
  }

  lemma {:induction false} MissingIs(r: nat, m: Map, ino: nat, f: PlainFile, off: nat, low: nat, levels: nat, l: nat)
    requires r >= 2 && l <= levels
    requires forall k: nat :: k <= levels ==> (OnPath(r, m, ino, off, low, k) <==> HasNode(r, levels, f.written, k, Up(r, off, k)))
    ensures Holes(r, m, ino, off, low, l) == Missing(r, levels, f.written, off, l)
  {
    if l > 0 { MissingIs(r, m, ino, f, off, low, levels, l - 1); }
  }

  /** After a write the file takes exactly the places it then should. */
  lemma ExactAfter(r: nat, m: Map, m': Map, ino: nat, f: PlainFile, off: nat, f': PlainFile)
    requires r >= 2 && Exact(r, m, ino, f) && Reached(r, m, m', ino, |f.blocks|, off)
    requires |f'.blocks| == SizeAfter(|f.blocks|, off) && f'.written == f.written + {off}
    ensures Exact(r, m', ino, f')
  {
    var low, levels := Levels(r, |f.blocks|), Levels(r, |f'.blocks|);
    if off >= |f.blocks| { DepthGrows(r, |f.blocks|, off); }
    hide Levels, Up;
    forall l: nat, idx: nat ensures Tree(ino, l, idx) in m'.at <==> HasNode(r, levels, f'.written, l, idx) {
      NodeAfter(r, m, m', ino, f, off, f', low, levels, l, idx);
    }
  }

  lemma NodeAfter(r: nat, m: Map, m': Map, ino: nat, f: PlainFile, off: nat, f': PlainFile, low: nat, levels: nat,
          l: nat, idx: nat)
    requires r >= 2 && Exact(r, m, ino, f) && Reached(r, m, m', ino, |f.blocks|, off)
    requires |f'.blocks| == SizeAfter(|f.blocks|, off) && f'.written == f.written + {off}
    requires low == Levels(r, |f.blocks|) <= levels == Levels(r, |f'.blocks|)
    ensures Tree(ino, l, idx) in m'.at <==> HasNode(r, levels, f'.written, l, idx)
  {
    if l > low && HasNode(r, levels, f.written, l, idx) { PlaceSameTop(r, f, low, l, idx, levels); }
    if exists w :: w in f'.written && Above(r, w, l, idx) {
      var w :| w in f'.written && Above(r, w, l, idx);
      assert w == off || w in f.written;
    }
    assert off in f'.written && Above(r, off, l, Up(r, off, l));
    if exists w :: w in f.written && Above(r, w, l, idx) {
      var w :| w in f.written && Above(r, w, l, idx);
      assert w in f'.written;
    }
  }

  /** Above the old root there was nothing but leftmost places. */
  lemma PlaceSameTop(r: nat, f: PlainFile, low: nat, l: nat, idx: nat, levels: nat)
    requires r >= 2 && low == Levels(r, |f.blocks|) < l && HasNode(r, levels, f.written, l, idx)
    requires forall w :: w in f.written ==> w < |f.blocks|
    ensures idx == 0
  {
    forall w | w in f.written ensures Up(r, w, l) == 0 {
      TopIndex(r, w, |f.blocks|);
      UpUp(r, w, low, l - low);
      PowPositive(r, l - low);
      DivSmall(0, Pow(r, l - low));
    }
  }

  /** Blocks that left the free list came to the file. */
  lemma UsedAfterWrite(m: Map, m': Map, ino: nat, need: nat)
    requires Took(m, m', ino, false) && FreeCount(m') + need == FreeCount(m)
    ensures |FileBlocks(m', ino)| == |FileBlocks(m, ino)| + need
    ensures forall x: nat :: x != ino ==> FileBlocks(m', x) == FileBlocks(m, x)
  {
    var took := FreeBlocks(m) - FreeBlocks(m');
    assert FreeBlocks(m) == FreeBlocks(m') + took;
    assert FileBlocks(m', ino) == FileBlocks(m, ino) + took;
    assert |FreeBlocks(m)| == |FreeBlocks(m')| + |took|;
  }

  lemma OtherExact(n: nat, r: nat, m: Map, m': Map, ino: nat, x: nat, f: PlainFile)
    requires r >= 2 && Partition(n, m) && Partition(n, m') && x != ino && Exact(r, m, x, f)
    requires Took(m, m', ino, false) || Returned(m, m', ino)
    ensures Exact(r, m', x, f)
  {
    SlotFrame(n, m, m', x);
  }

  lemma ModelsParts(s: Plain, d: seq<Block>, r: nat, m: Map, i: nat)
    requires Inv(d, r, m) && Models(s, d, r, m) && i < |s.files|
    ensures i < NumInodes(d, r) && i < |Store(d, r, m)| && |s.files[i].blocks| == Size(d, r, i)
    ensures s.files[i].blocks == Store(d, r, m)[i]
    ensures Exact(r, m, i, s.files[i]) && s.files[i].used == |FileBlocks(m, i)|
  {
    assert FileModel(Store(d, r, m), r, m, i, s.files[i]);
    StoreAt(d, r, m, i);
  }

  lemma ModelsWrite(s: Plain, d: seq<Block>, m: Map, d': seq<Block>, m': Map, r: nat, ino: nat, off: nat, blk: Block)
    requires Inv(d, r, m) && Inv(d', r, m') && |d'| == |d| && Models(s, d, r, m) && ino < |s.files|
    requires Need(r, s.files[ino], off) <= s.free
    requires Store(d', r, m') == Written(Store(d, r, m), r, ino, off, blk) && Took(m, m', ino, false)
    requires FreeCount(m') + Need(r, s.files[ino], off) == FreeCount(m)
    requires Reached(r, m, m', ino, |s.files[ino].blocks|, off)
    ensures var f := s.files[ino]; var need := Need(r, f, off);
      Models(Plain(s.files[ino := PlainFile(Extended(f.blocks, r, off + 1)[off := blk], f.written + {off}, f.used + need)], s.free - need), d', r, m')
  {
    var f, need := s.files[ino], Need(r, s.files[ino], off);
    var f' := PlainFile(Extended(f.blocks, r, off + 1)[off := blk], f.written + {off}, f.used + need);
    var files := s.files[ino := f'];
    hide Files, FreeList, FixedPart, Need, Exact, Reached, FreeCount, FileBlocks, Took, Store;
    ModelsParts(s, d, r, m, ino);
    ExactAfter(r, m, m', ino, f, off, f');
    UsedAfterWrite(m, m', ino, need);
    StoreSize(d, r, m);
    StoreSize(d', r, m');
    forall i | 0 <= i < |files| ensures FileModel(Store(d', r, m'), r, m', i, files[i]) {
      ModelsParts(s, d, r, m, i);
      if i != ino { OtherExact(|d|, r, m, m', ino, i, files[i]); }
    }
  }

  lemma StoreSize(d: seq<Block>, r: nat, m: Map)
    requires Inv(d, r, m)
    ensures |Store(d, r, m)| == NumInodes(d, r)
  {
  }

  /** Blocks of a file that is truncated are free again. */
  lemma FreeAfterTruncate(m: Map, m': Map, ino: nat)
    requires Returned(m, m', ino)
    ensures FreeCount(m') == FreeCount(m) + |FileBlocks(m, ino)| && FileBlocks(m', ino) == {}
    ensures forall x: nat :: x != ino ==> FileBlocks(m', x) == FileBlocks(m, x)
  {
    assert FreeBlocks(m') == FreeBlocks(m) + FileBlocks(m, ino);
    assert FreeBlocks(m) !! FileBlocks(m, ino);
  }

  lemma ModelsTruncate(s: Plain, d: seq<Block>, m: Map, d': seq<Block>, m': Map, r: nat, ino: nat)
    requires Inv(d, r, m) && Inv(d', r, m') && |d'| == |d| && Models(s, d, r, m) && ino < |s.files|
    requires Store(d', r, m') == Store(d, r, m)[ino := []] && Returned(m, m', ino)
    ensures Models(Plain(s.files[ino := PlainFile([], {}, 0)], s.free + s.files[ino].used), d', r, m')
  {
    var files := s.files[ino := PlainFile([], {}, 0)];
    hide Files, FreeList, FixedPart, FreeCount, FileBlocks, Returned, Store;
    ModelsParts(s, d, r, m, ino);
    StoreSize(d, r, m);
    StoreSize(d', r, m');
    FreeAfterTruncate(m, m', ino);
    EmptyExact(d', r, m', ino);
    hide Exact;
    forall i | 0 <= i < |files| ensures FileModel(Store(d', r, m'), r, m', i, files[i]) {
      ModelsParts(s, d, r, m, i);
      if i != ino { OtherExact(|d|, r, m, m', ino, i, files[i]); }
    }
  }

  lemma EmptyExact(d: seq<Block>, r: nat, m: Map, ino: nat)
    requires Inv(d, r, m) && ino < NumInodes(d, r) && ino < |Store(d, r, m)| && Store(d, r, m)[ino] == []
    ensures Exact(r, m, ino, PlainFile([], {}, 0))
  {
    StoreAt(d, r, m, ino);
    SlotsIn(d, r, m, ino);
    EmptyHasNoSlots(r, m, ino);
  }

  // ---- runs ----

  lemma InodesMod(n: nat)
    requires n < TWO32
    ensures n % TWO32 == n
  {
  }

  lemma EmptiableWhenRooted(d: seq<Block>, r: nat, m: Map, ino: nat)
    requires Inv(d, r, m) && Rooted(d, r, m) && ino < NumInodes(d, r)
    ensures Emptiable(d, r, ino)
    ensures Size(d, r, ino) == |Store(d, r, m)[ino]|
  {
    assert RootedAt(d, r, ino);
  }

  /** The contents of all files. */
  ghost function Blocks(s: Plain): (b: seq<seq<Block>>)
    ensures |b| == |s.files|
  {
    seq(|s.files|, i requires 0 <= i < |s.files| => s.files[i].blocks)
  }

  lemma BlocksStored(s: Plain, d: seq<Block>, r: nat, m: Map)
    requires Inv(d, r, m) && Models(s, d, r, m)
    ensures Store(d, r, m) == Blocks(s)
  {
    StoreSize(d, r, m);
    forall i | 0 <= i < |s.files| ensures Store(d, r, m)[i] == Blocks(s)[i] {
      ModelsParts(s, d, r, m, i);
    }
  }

  /** What a write that finds too few free blocks leaves: none is free now, and its file is extended
      with zeros, unless not even the new levels could be added. */
  ghost predicate LeftFull(s: Plain, r: nat, op: Op, store: seq<seq<Block>>, free: nat)
    requires r >= 2
  {
    && NoRoom(s, r, op) && free == 0
    && store == if s.free < NewLevels(r, |s.files[op.ino].blocks|, op.off) then Blocks(s)
                else Blocks(s)[op.ino := Extended(s.files[op.ino].blocks, r, op.off + 1)]
  }

  /** Serves one request, as the simple form says. */
  method Serve(fs: TreeDisk, op: Op, ghost s: Plain) returns (reply: Reply)
    requires fs.Valid() && Rooted(fs.below.blocks, fs.r, fs.m) && Models(s, fs.below.blocks, fs.r, fs.m)
    requires SizesFit(s) && Fits(op, fs.r)
    modifies fs, fs.below
    ensures fs.Valid() && reply == Answer(s, fs.r, op)
    ensures reply == Endless ==> fs.below.blocks == old(fs.below.blocks) && fs.m == old(fs.m)
    ensures reply != NoSpace ==> Rooted(fs.below.blocks, fs.r, fs.m) && Models(After(s, fs.r, op), fs.below.blocks, fs.r, fs.m)
    ensures reply == NoSpace ==> LeftFull(s, fs.r, op, fs.Contents(), FreeCount(fs.m))
  {
    hide Files, FreeList, FixedPart, Partition, Store, Returned, Took, Rooted, Models, Need, Needed, Reached,
         FreeCount, NewLevels;
    ghost var d, m := fs.below.blocks, fs.m;
    ModelsSize(s, d, fs.r, m);
    InodesMod(|s.files|);
    BlocksStored(s, d, fs.r, m);
    if op.ino < |s.files| { ModelsParts(s, d, fs.r, m, op.ino); }
    match op
    case Put(ino, off, blk) =>
      var out := fs.Write(ino, off, blk);
      if ino < |s.files| { NeedIs(d, fs.r, m, ino, s.files[ino], off); }
      if out.Done? {
        OnWayEnd(fs.r, m, fs.m, ino, |s.files[ino].blocks|, off);
        RootedAfterWrite(d, m, fs.below.blocks, fs.m, fs.r, ino, off, blk);
        ModelsWrite(s, d, m, fs.below.blocks, fs.m, fs.r, ino, off, blk);
      }
      reply := match out case Done => Ok case Refused => Error case Panicked => NoSpace;
    case Get(ino, off) =>
      var out, blk := fs.Read(ino, off);
      reply := if out.Done? then Data(blk) else Error;
    case Truncate(ino) =>
      var n := fs.GetNinodes();
      if ino >= n {
        return Error;
      }
      EmptiableWhenRooted(d, fs.r, m, ino);
      var blocks := fs.GetSize(ino);
      LargeIs(s, fs.r, fs.logRpb, op);
      if !Freeable(fs.logRpb, blocks) {
        return Endless;
      }
      var size := fs.SetSize(ino, 0);
      RootedAfterTruncate(d, m, fs.below.blocks, fs.m, fs.r, ino);
      ModelsTruncate(s, d, m, fs.below.blocks, fs.m, fs.r, ino);
      reply := OldSize(size);
  }

  lemma ModelsSize(s: Plain, d: seq<Block>, r: nat, m: Map)
    requires Inv(d, r, m) && Models(s, d, r, m)
    ensures |s.files| == NumInodes(d, r) == |Store(d, r, m)| && s.free == FreeCount(m)
  {
    StoreSize(d, r, m);
  }

  lemma LargeIs(s: Plain, r: nat, k: nat, op: Op)
    requires 1 <= k && r == Pow(2, k) && r >= 2 && op.Truncate? && op.ino < |s.files| && |s.files[op.ino].blocks| < TWO32
    ensures TooLarge(s, r, op) <==> !Freeable(k, |s.files[op.ino].blocks|)
  {
    BitsOfPow(k);
  }

  lemma OnWayEnd(r: nat, m: Map, m': Map, ino: nat, size: nat, off: nat)
    requires r >= 2 && Reached(r, m, m', ino, size, off)
    ensures Tree(ino, 0, off) in m'.at
  {
    UpZero(r, off);
    assert OnWay(r, off, 0, off, 0, Levels(r, SizeAfter(size, off)));
  }

  predicate Ends(reply: Reply) {
    reply == NoSpace || reply == Endless
  }

  /** A run answers as the plain files do, and ends only with the first write for which there is too
      little room, or with emptying a file that is too large. Up to there it leaves what the plain files hold. */
  ghost predicate RanFrom(s: Plain, r: nat, ops: seq<Op>, replies: seq<Reply>, d: seq<Block>, m: Map)
    requires Inv(d, r, m)
  {
    && |replies| <= |ops|
    && replies == Answers(s, r, ops[..|replies|])
    && (forall j :: 0 <= j < NotLast(replies) ==> !Ends(replies[j]))
    && (|replies| < |ops| ==> replies != [] && Ends(replies[NotLast(replies)]))
    && (NoSpace !in replies ==> Rooted(d, r, m) && Models(Final(s, r, ops[..|replies|]), d, r, m))
    && (NoSpace in replies ==> var n := NotLast(replies);
          n < |ops| && LeftFull(Final(s, r, ops[..n]), r, ops[n], Store(d, r, m), FreeCount(m)))
  }

  /** Every run, of any length, answers as the plain files do, and ends only with the first write
      for which there is too little room, which is answered NoSpace, or with a file too large to be emptied. */
  method Run(fs: TreeDisk, ops: seq<Op>, ghost s: Plain) returns (replies: seq<Reply>)
    requires fs.Valid() && Rooted(fs.below.blocks, fs.r, fs.m) && Models(s, fs.below.blocks, fs.r, fs.m)
    requires SizesFit(s) && forall i :: 0 <= i < |ops| ==> Fits(ops[i], fs.r)
    modifies fs, fs.below
    ensures fs.Valid() && RanFrom(s, fs.r, ops, replies, fs.below.blocks, fs.m)
  {
    hide Inv, Rooted, Final, Answers, Answer, After, Fits, SizesFit, Models, LeftFull;
    replies := [];
    InvSized(fs.below.blocks, fs.r, fs.m);
    RunStart(s, fs.r);
    assert ops[..0] == [];
    while |replies| < |ops|
      invariant |replies| <= |ops| && forall j :: 0 <= j < |replies| ==> !Ends(replies[j])
      invariant fs.Valid() && Rooted(fs.below.blocks, fs.r, fs.m)
      invariant Models(Final(s, fs.r, ops[..|replies|]), fs.below.blocks, fs.r, fs.m)
      invariant SizesFit(Final(s, fs.r, ops[..|replies|]))
      invariant replies == Answers(s, fs.r, ops[..|replies|])
    {
      var n := |replies|;
      ghost var now := Final(s, fs.r, ops[..n]);
      FitsStay(now, fs.r, ops[n]);
      RunNext(s, fs.r, ops, n);
      var reply := Serve(fs, ops[n], now);
      ghost var before := replies;
      replies := replies + [reply];
      assert replies[..n] == before;
      if Ends(reply) {
        assert replies[n] == reply;
        return;
      }
    }
    assert ops[..|replies|] == ops;
  }

  lemma InvSized(d: seq<Block>, r: nat, m: Map)
    requires Inv(d, r, m)
    ensures Core(d, r, m) && Sized(d, r) && r >= 2 && NumInodeBlocks(d) < |d|
  {
  }

  /** Index of the last reply. */
  function NotLast(replies: seq<Reply>): (n: nat)
    ensures n <= |replies|
  {
    if replies == [] then 0 else |replies| - 1
  }

  lemma RunStart(s: Plain, r: nat)
    requires r >= 2
    ensures Final(s, r, []) == s && Answers(s, r, []) == []
  {
  }

  lemma RunNext(s: Plain, r: nat, ops: seq<Op>, n: nat)
    requires r >= 2 && n < |ops|
    ensures Final(s, r, ops[..n + 1]) == After(Final(s, r, ops[..n]), r, ops[n])
    ensures Answers(s, r, ops[..n + 1]) == Answers(s, r, ops[..n]) + [Answer(Final(s, r, ops[..n]), r, ops[n])]
  {
    assert ops[..n + 1][..n] == ops[..n];
  }

  /** A new store: n empty files, and all the rest of the disk free. */
  ghost function NewPlain(nblocks: nat, ninodes: nat, r: nat): Plain
    requires r >= 2 && InodeBlocksFor(ninodes, r) < nblocks
  {
    var nib := InodeBlocksFor(ninodes, r);
    Plain(seq(nib * (r / 2), _ => PlainFile([], {}, 0)), nblocks - 1 - nib)
  }

  /** The same from an uninitialized disk: a disk of any size, and any requests. */
  method CreateAndRun(below: BlockStore, r: nat, ghost k: nat, ninodes: Word, ops: seq<Op>)
    returns (result: Creation, fs: TreeDisk?, replies: seq<Reply>)
    requires Sized(below.blocks, r) && 1 <= k < 32 && r == Pow(2, k)
    requires InodeBlocksFor(ninodes, r) + 2 < TWO32 && InodeBlocksFor(ninodes, r) * (r / 2) < TWO32
    requires forall i :: 0 <= i < |ops| ==> Fits(ops[i], r)
    modifies below
    ensures result ==
      if |old(below.blocks)| < InodeBlocksFor(ninodes, r) + 2 then TooFewBlocks
      else if NumInodeBlocks(old(below.blocks)) == 0 then Initialized
      else if NumInodeBlocks(old(below.blocks)) < InodeBlocksFor(ninodes, r) then Aborted else AlreadyThere
    ensures !result.Initialized? ==> below.blocks == old(below.blocks)
    ensures result.Initialized? ==> fs != null && fs.below == below && fs.r == r && fs.Valid()
    ensures result.Initialized? ==> RanFrom(NewPlain(|old(below.blocks)|, ninodes, r), r, ops, replies, below.blocks, fs.m)
  {
    hide Inv, Rooted, Final, Answers, Fits, SizesFit, InodeBlocksFor, EmptyFiles, Pow, Models, LeftFull, NewPlain,
         RanFrom;
    replies, fs := [], null;
    ghost var m;
    result, m := Create(below, r, ninodes);
    if result.Initialized? {
      ghost var d := below.blocks;
      fs := new TreeDisk(below, r, k, m);
      FreshRooted(d, r, m);
      FreshModels(d, r, m, k, ninodes);
      replies := Run(fs, ops, NewPlain(|d|, ninodes, r));
    }
  }

  lemma FreshRooted(d: seq<Block>, r: nat, m: Map)
    requires Inv(d, r, m) && Store(d, r, m) == EmptyFiles(NumInodes(d, r))
    requires forall b :: NumInodeBlocks(d) < b < |d| ==> m.owner[b].FreeNode? || m.owner[b].FreeEntry?
    ensures Rooted(d, r, m)
  {
    forall b | 0 <= b < |d| ensures !m.owner[b].Lost? {
      if b == 0 { CoreShape(d, r, m); }
      if 1 <= b <= NumInodeBlocks(d) { assert InodeBlock(b) in m.at; }
    }
    forall ino: nat | ino < NumInodes(d, r) ensures RootedAt(d, r, ino) {
      assert |Store(d, r, m)[ino]| == Size(d, r, ino);
    }
  }

  ghost function Range(a: nat, b: nat): (s: set<nat>)
    requires a <= b
    ensures |s| == b - a && forall x: nat :: x in s <==> a <= x < b
  {
    if a == b then {} else Range(a, b - 1) + {b - 1}
  }

  lemma FreshModels(d: seq<Block>, r: nat, m: Map, k: nat, ninodes: nat)
    requires Inv(d, r, m) && Store(d, r, m) == EmptyFiles(NumInodes(d, r)) && k >= 1
    requires NumInodeBlocks(d) == InodeBlocksFor(ninodes, r) && NumInodes(d, r) < TWO32
    requires forall b :: NumInodeBlocks(d) < b < |d| ==> m.owner[b].FreeNode? || m.owner[b].FreeEntry?
    ensures InodeBlocksFor(ninodes, r) < |d|
    ensures Models(NewPlain(|d|, ninodes, r), d, r, m) && SizesFit(NewPlain(|d|, ninodes, r))
  {
    hide Inv, InodeBlocksFor, Store, FileModel, FreeCount, Pow, EmptyFiles, Freeable;
    InvSized(d, r, m);
    var s := NewPlain(|d|, ninodes, r);
    FreshFree(d, r, m);
    StoreSize(d, r, m);
    forall i | 0 <= i < |s.files| ensures FileModel(Store(d, r, m), r, m, i, s.files[i]) {
      FreshModel(d, r, m, i);
    }
  }

  lemma FreshFree(d: seq<Block>, r: nat, m: Map)
    requires Inv(d, r, m) && forall b :: NumInodeBlocks(d) < b < |d| ==> m.owner[b].FreeNode? || m.owner[b].FreeEntry?
    ensures FreeCount(m) == |d| - 1 - NumInodeBlocks(d) >= 0
  {
    hide Files, FreeList;
    var nib := NumInodeBlocks(d);
    forall b: nat | b < |d| ensures OnFreeList(m.owner[b]) <==> b > nib {
      if b == 0 { CoreShape(d, r, m); }
      if 1 <= b <= nib { assert InodeBlock(b) in m.at; }
    }
    assert FreeBlocks(m) == Range(nib + 1, |d|);
  }

  lemma FreshModel(d: seq<Block>, r: nat, m: Map, i: nat)
    requires Inv(d, r, m) && Store(d, r, m) == EmptyFiles(NumInodes(d, r)) && i < NumInodes(d, r)
    ensures FileModel(Store(d, r, m), r, m, i, PlainFile([], {}, 0))
  {
    EmptyExact(d, r, m, i);
    NoBlocks(|d|, r, m, i);
  }

  lemma NoBlocks(n: nat, r: nat, m: Map, i: nat)
    requires r >= 2 && Partition(n, m) && Exact(r, m, i, PlainFile([], {}, 0))
    ensures FileBlocks(m, i) == {}
  {
    forall b: nat | b < |m.owner| ensures !InFile(m.owner[b], i) {
      assert m.owner[b] in m.at;
    }
  }
}
