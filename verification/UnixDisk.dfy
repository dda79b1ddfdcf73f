/** The inode store: files of blocks, found through direct, indirect and doubly indirect references. */
module UnixDisks {
  import opened Radix
  import opened UnixLayout

  // ---- which blocks a file has ----

  /** Data blocks lo to hi, the single and the double indirect block, and those the double refers to, from..to */
  datatype Shape = Shape(lo: nat, hi: nat, single: bool, double: bool, from: nat, to: nat)

  predicate InShape(s: Slot, sh: Shape) {
    match s
    case Data(_, off) => sh.lo <= off < sh.hi
    case Single(_) => sh.single
    case Double(_) => sh.double
    case Second(_, j) => sh.from <= j < sh.to
    case Free(_) => false
  }

  function Seconds(nb: nat): nat {
    if nb > TWO_LEVELS then (nb - TWO_LEVELS + E - 1) / E else 0
  }

  /** All the blocks of a file of nb blocks */
  function Whole(nb: nat): Shape {
    Shape(0, nb, nb > DIRECT, nb > TWO_LEVELS, 0, Seconds(nb))
  }

  /** How many that is */
  function Slots(nb: nat): nat {
    nb + (if nb > DIRECT then 1 else 0) + (if nb > TWO_LEVELS then 1 else 0) + Seconds(nb)
  }

  function ShapeSlots(sh: Shape): int {
    sh.hi - sh.lo + (if sh.single then 1 else 0) + (if sh.double then 1 else 0) + sh.to - sh.from
  }

  ghost predicate Part(m: Map, ino: nat, sh: Shape) {
    forall s: Slot :: !s.Free? && s.ino == ino ==> (s in m.at <==> InShape(s, sh))
  }

  /** Apart from file ino, the files have the blocks they had. */
  ghost predicate Rest(m: Map, m': Map, ino: nat) {
    forall s: Slot :: !s.Free? && s.ino != ino ==> Same(m, m', s)
  }

  predicate Same(m: Map, m': Map, s: Slot) {
    (s in m'.at <==> s in m.at) && At(m', s) == At(m, s)
  }

  function Size(v: seq<Block>, ino: nat): nat {
    Word0(v, InodeBlock(ino), InodeWord(ino, 0))
  }

  ghost predicate Good(v: seq<Block>, n: nat, m: Map, free: nat) {
    && Inv(v, n, m, free)
    && forall ino :: 0 <= ino < n * INODES ==> FileOk(v, m, ino)
  }

  ghost predicate FileOk(v: seq<Block>, m: Map, ino: nat) {
    Size(v, ino) <= MAX_BLOCKS && Part(m, ino, Whole(Size(v, ino)))
  }

  // ---- the disk, and what it will be ----

  /** Disk v is d but for some blocks, of which there are newer images in memory. */
  ghost predicate Behind(d: seq<Block>, v: seq<Block>, open: set<nat>) {
    |d| == |v| && forall b :: 0 <= b < |d| && b !in open ==> d[b] == v[b]
  }

  /** The blocks with images are not of the free list, nor the superblock. */
  ghost predicate Apart(n: nat, m: Map, open: set<nat>) {
    0 !in open && forall s :: s in m.at && s.Free? ==> Abs(n, m.at[s]) !in open
  }

  /** The data blocks of all files but one are as they were. */
  ghost predicate Keeps(v: seq<Block>, v': seq<Block>, n: nat, m: Map, m': Map, but: int) {
    forall ino, off :: ino != but && Data(ino, off) in m.at ==>
      Data(ino, off) in m'.at && SameBlock(v, v', n, m, m', Data(ino, off))
  }

  lemma PopAgrees(d: seq<Block>, v: seq<Block>, n: nat, m: Map, free: nat, open: set<nat>)
    requires Inv(v, n, m, free) && free > 0 && Behind(d, v, open) && Apart(n, m, open)
    ensures PopResult(d, n) == PopResult(v, n) && Behind(Popped(d, n), Popped(v, n), open)
  {
    hide Referred, Domain;
    InvFits(v, n, m, free);
    HeadIs(v, n, m, free);
    AbsDistinct(n, m, HeadSlot(free), HeadSlot(free));
  }

  /** A pop for slot s whose holder has an image in memory */
  lemma GivenBehind(d: seq<Block>, v: seq<Block>, n: nat, m: Map, free: nat, open: set<nat>, s: Slot)
    requires Inv(v, n, m, free) && free > 0 && Behind(d, v, open) && Apart(n, m, open)
    requires InFile(s, n) && s !in m.at && Held(m, free, s) && HolderBlock(n, m, HolderOf(free, s)) in open
    ensures var w, b := Given(v, n, m, free, s), HolderBlock(n, m, HolderOf(free, s));
      && Behind(Popped(d, n), w, open) && b < |v| && HolderWord(s) < E
      && w[b] == v[b][HolderWord(s) := PopResult(d, n)]
      && forall c :: 0 < c < |v| && c != b ==> w[c] == v[c]
  {
    hide Referred, Domain, PopResult;
    InvFits(v, n, m, free);
    PopAgrees(d, v, n, m, free, open);
    FilePlace(n, m, free, s);
    forall c | 0 < c < |v| ensures Popped(v, n)[c] == v[c] { PoppedElsewhere(v, n, c, 0); }
  }

  /** No size is where a reference is. */
  lemma SizesKept(v: seq<Block>, n: nat, m: Map, free: nat, s: Slot, ino: nat)
    requires Inv(v, n, m, free) && free > 0 && InFile(s, n) && s !in m.at && Held(m, free, s) && ino < n * INODES
    ensures Size(Given(v, n, m, free, s), ino) == Size(v, ino)
  {
    hide Referred, Domain, PopResult, Popped;
    InvFits(v, n, m, free);
    FilePlace(n, m, free, s);
    var h := HolderOf(free, s);
    if h.Slot? { AbsDistinct(n, m, h.slot, h.slot); }
    PoppedElsewhere(v, n, InodeBlock(ino), InodeWord(ino, 0));
    WrittenWord(Popped(v, n), HolderBlock(n, m, h), HolderWord(s), PopResult(v, n), InodeBlock(ino), InodeWord(ino, 0));
  }

  // ---- growing a file ----

  /** The block of s is now for t, and holds what it held. */
  ghost predicate Stayed(v0: seq<Block>, v: seq<Block>, n: nat, m0: Map, m: Map, s: Slot, t: Slot) {
    && s in m0.at && At(m, t) == m0.at[s]
    && var b := Abs(n, m0.at[s]); n < b < |v0| && b < |v| && v[b] == v0[b]
  }

  /** The blocks still free are where they were. The file has got its new data blocks in order: when that at off
      was popped, total - Slots(off + 1) were left. */
  ghost predicate Drawn(v0: seq<Block>, v: seq<Block>, n: nat, m0: Map, m: Map, ino: nat, total: int) {
    && (forall p: nat :: Free(p) in m.at ==> Stayed(v0, v, n, m0, m, Free(p), Free(p)))
    && forall off: nat :: Data(ino, off) in m.at && Data(ino, off) !in m0.at ==>
         total >= Slots(off + 1) && Stayed(v0, v, n, m0, m, Free(total - Slots(off + 1)), Data(ino, off))
  }

  lemma DrawnOn(v0: seq<Block>, v: seq<Block>, n: nat, m0: Map, m: Map, free: nat, ino: nat, total: int, s: Slot)
    requires Drawn(v0, v, n, m0, m, ino, total) && Inv(v, n, m, free) && free > 0
    requires InFile(s, n) && s !in m.at && Held(m, free, s) && s.ino == ino
    requires s.Data? ==> total - Slots(s.off + 1) == free - 1
    ensures Free(free - 1) in m.at && m.at[Free(free - 1)] < |m.own|
    ensures Drawn(v0, Given(v, n, m, free, s), n, m0, Move(m, Free(free - 1), s), ino, total)
  {
    hide Inv, Popped, PopResult, HolderOf, Slots, Abs;
    InvFits(v, n, m, free);
    FreeIn(v, n, m, free, free - 1);
    FilePlace(n, m, free, s);
    var m', w := Move(m, Free(free - 1), s), Given(v, n, m, free, s);
    forall p: nat | Free(p) in m'.at ensures Stayed(v0, w, n, m0, m', Free(p), Free(p)) {
      MovedAt(m, free, s, Free(p));
      GivenStays(v, n, m, free, s, Free(p));
    }
    forall off: nat | Data(ino, off) in m'.at && Data(ino, off) !in m0.at
      ensures total >= Slots(off + 1) && Stayed(v0, w, n, m0, m', Free(total - Slots(off + 1)), Data(ino, off))
    {
      var t := Data(ino, off);
      if t == s {
        assert Stayed(v0, v, n, m0, m, Free(free - 1), Free(free - 1));
        GivenStays(v, n, m, free, s, Free(free - 1));
      } else {
        MovedAt(m, free, s, t);
        GivenStays(v, n, m, free, s, t);
      }
    }
  }

  /** Giving a block to a file changes none that is free, or of data. */
  lemma GivenStays(v: seq<Block>, n: nat, m: Map, free: nat, s: Slot, t: Slot)
    requires Inv(v, n, m, free) && InFile(s, n) && Held(m, free, s) && t in m.at && (t.Free? || t.Data?)
    ensures var b := Abs(n, m.at[t]); b < |v| && Given(v, n, m, free, s)[b] == v[b]
  {
    hide Inv, Popped, PopResult, HolderOf, Abs;
    InvFits(v, n, m, free);
    FilePlace(n, m, free, s);
    AbsDistinct(n, m, t, t);
    PoppedElsewhere(v, n, Abs(n, m.at[t]), 0);
  }

  /** While file ino grows: it has the blocks of sh, the new ones popped in order, and nothing else changed since v0
      and m0. */
  ghost predicate Doing(d: seq<Block>, v: seq<Block>, n: nat, m: Map, free: nat, ino: nat, sh: Shape, open: set<nat>,
                        v0: seq<Block>, m0: Map) {
    && Inv(v, n, m, free) && Behind(d, v, open) && Apart(n, m, open)
    && Part(m, ino, sh) && Rest(m0, m, ino) && Keeps(v0, v, n, m0, m, -1)
    && |m.own| == |m0.own| && (forall i :: 0 <= i < n * INODES ==> Size(v, i) == Size(v0, i))
    && Drawn(v0, v, n, m0, m, ino, free + ShapeSlots(sh))
  }

  ghost predicate Adds(sh: Shape, sh': Shape, s: Slot) {
    && !s.Free? && !InShape(s, sh) && ShapeSlots(sh') == ShapeSlots(sh) + 1
    && (s.Data? ==> ShapeSlots(sh') == Slots(s.off + 1))
    && forall t: Slot :: !t.Free? && t.ino == s.ino ==> (InShape(t, sh') <==> InShape(t, sh) || t == s)
  }

  /** The block that refers to s is there, and has an image. */
  ghost predicate Open(n: nat, m: Map, free: nat, s: Slot, sh: Shape, open: set<nat>) {
    && (HolderOf(free, s).Slot? ==> HolderOf(free, s).slot.Free? == false && HolderOf(free, s).slot.ino == s.ino
                                    && InShape(HolderOf(free, s).slot, sh))
    && HolderBlock(n, m, HolderOf(free, s)) in open
  }

  /** The file has slot s more, and other files, and blocks with images, are the same. */
  lemma GivenShape(n: nat, m: Map, m': Map, free: nat, ino: nat, sh: Shape, sh': Shape, s: Slot, open: set<nat>, m0: Map)
    requires Part(m, ino, sh) && Rest(m0, m, ino) && Apart(n, m, open) && Adds(sh, sh', s) && s.ino == ino && free > 0
    requires forall t: Slot :: !t.Free? && t != s ==> Same(m, m', t)
    requires forall t :: t in m'.at <==> t == s || (t in m.at && t != Free(free - 1))
    requires forall t :: t in m'.at && t != s ==> At(m', t) == At(m, t)
    ensures Part(m', ino, sh') && Rest(m0, m', ino) && Apart(n, m', open)
  {
    hide InShape, ShapeSlots, Slots, Abs;
    forall t: Slot | !t.Free? && t.ino != ino ensures Same(m0, m', t) {
      assert Same(m0, m, t) && Same(m, m', t);
    }
    forall t | t in m'.at && t.Free? ensures Abs(n, m'.at[t]) !in open {
      assert At(m', t) == At(m, t);
    }
    forall t: Slot | !t.Free? && t.ino == ino ensures t in m'.at <==> InShape(t, sh') {
      if t != s { assert Same(m, m', t); }
    }
  }

  lemma GiveDoing(d: seq<Block>, v: seq<Block>, n: nat, m: Map, free: nat, ino: nat, sh: Shape, open: set<nat>,
                  v0: seq<Block>, m0: Map, s: Slot, sh': Shape)
    requires Doing(d, v, n, m, free, ino, sh, open, v0, m0) && free > 0
    requires Adds(sh, sh', s) && s.ino == ino && InFile(s, n) && Open(n, m, free, s, sh, open)
    ensures Free(free - 1) in m.at && m.at[Free(free - 1)] < |m.own|
    ensures var m', w := Move(m, Free(free - 1), s), Given(v, n, m, free, s);
      && Doing(Popped(d, n), w, n, m', free - 1, ino, sh', open, v0, m0)
      && PopResult(d, n) == At(m', s) && s in m'.at
      && forall t: Slot :: !t.Free? && t != s ==> Same(m, m', t)
  {
    hide Referred, SuperOk, Domain, Popped, PopResult, Given, Behind, HolderBlock, Drawn, Slots, ShapeSlots, Keeps,
         SameData, Rest;
    assert s !in m.at && Held(m, free, s);
    InvFits(v, n, m, free);
    FreeIn(v, n, m, free, free - 1);
    PopAgrees(d, v, n, m, free, open);
    PopIs(v, n, m, free);
    GivenBehind(d, v, n, m, free, open, s);
    GiveKeeps(v, n, m, free, s);
    var m', w := Move(m, Free(free - 1), s), Given(v, n, m, free, s);
    forall i | 0 <= i < n * INODES ensures Size(w, i) == Size(v0, i) { SizesKept(v, n, m, free, s, i); }
    forall t: Slot | !t.Free? && t != s ensures Same(m, m', t) { MovedAt(m, free, s, t); }
    forall t | t in m'.at && t != s ensures At(m', t) == At(m, t) { MovedAt(m, free, s, t); }
    hide Part, Apart;
    GivenShape(n, m, m', free, ino, sh, sh', s, open, m0);
    KeepsOn(v0, v, w, n, m0, m, m', -1);
    DrawnOn(v0, v, n, m0, m, free, ino, free + ShapeSlots(sh), s);
  }

  lemma KeepsOn(v: seq<Block>, v': seq<Block>, v'': seq<Block>, n: nat, m: Map, m': Map, m'': Map, but: int)
    requires Keeps(v, v', n, m, m', but) && SameData(v', v'', n, m', m'')
    requires forall ino, off :: ino != but && Data(ino, off) in m'.at ==> Data(ino, off) in m''.at
    ensures Keeps(v, v'', n, m, m'', but)
  {
    forall ino, off | ino != but && Data(ino, off) in m.at
      ensures Data(ino, off) in m''.at && SameBlock(v, v'', n, m, m'', Data(ino, off))
    {
      assert SameBlock(v, v', n, m, m', Data(ino, off));
      assert SameBlock(v', v'', n, m', m'', Data(ino, off));
    }
  }

  class UnixDisk {
    var disk: seq<Block>
    ghost var v: seq<Block>  // the disk once the images in memory are written
    ghost var m: Map
    ghost var free: nat

    /** unixdisk_popfree */
    method PopFree(n: nat) returns (b: Word)
      requires |disk| > 0
      modifies this`disk
      ensures b == PopResult(old(disk), n) && disk == Popped(old(disk), n)
    {
      if disk[0][1] == NONE { return NONE; }
      var head := Abs(n, disk[0][1]);
      if head >= |disk| { return NONE; }
      var sb := disk[0];
      if sb[2] > 0 {
        var k: nat := sb[2];
        sb := sb[2 := k - 1];
        b := Word0(disk, head, 1 + k);
      } else {
        b := sb[1];
        sb := sb[1 := disk[head][1]][2 := G - 1];
      }
      disk := disk[0 := sb];
    }

    /** A block popped for slot s, which adds it to shape sh of the file */
    method Give(n: nat, ghost ino: nat, ghost s: Slot, ghost sh: Shape, ghost sh': Shape, ghost open: set<nat>,
                ghost v0: seq<Block>, ghost m0: Map, ghost ok: bool) returns (b: Word)
      requires |disk| > 0
      requires ok ==> Doing(disk, v, n, m, free, ino, sh, open, v0, m0) && free > 0
      requires ok ==> Adds(sh, sh', s) && s.ino == ino && InFile(s, n) && Open(n, m, free, s, sh, open)
      modifies this
      ensures |disk| == |old(disk)| && b == PopResult(old(disk), n) && disk == Popped(old(disk), n)
      ensures ok ==> Doing(disk, v, n, m, free, ino, sh', open, v0, m0) && free == old(free) - 1 && b == At(m, s)
      ensures ok ==> Filed(old(v), v, HolderBlock(n, old(m), HolderOf(old(free), s)), HolderWord(s), b)
      ensures ok ==> forall t: Slot :: !t.Free? && t != s ==> Same(old(m), m, t)
    {
      hide Doing, Adds, Open, Popped, PopResult;
      ghost var d := disk;
      b := PopFree(n);
      if ok {
        GiveDoing(d, v, n, m, free, ino, sh, open, v0, m0, s, sh');
        GiveFiled(d, v, n, m, free, ino, sh, open, v0, m0, s, sh');
        v, m, free := Given(v, n, m, free, s), Move(m, Free(free - 1), s), free - 1;
      }
    }

    /** The direct blocks of unixdisk_alloc; where there are too few, the last are recorded as none. */
    method AllocDirect(n: nat, ino: nat, ib0: Block, nb: nat, offset: nat,
                       ghost v0: seq<Block>, ghost m0: Map, ghost sound: bool) returns (ib: Block, i: nat)
      requires |disk| > 0 && nb <= offset
      requires sound ==> Doing(disk, v, n, m, free, ino, Whole(nb), {InodeBlock(ino)}, v0, m0) && ino < n * INODES
      requires sound ==> Image(v, InodeBlock(ino), ib0)
      modifies this
      ensures |disk| == |old(disk)| && (nb >= DIRECT ==> m == old(m))
      ensures i == if nb < DIRECT then Least(DIRECT, offset + 1) else nb
      ensures sound && i - nb <= old(free) ==>
        Doing(disk, v, n, m, free, ino, Whole(i), {InodeBlock(ino)}, v0, m0) && free == old(free) - (i - nb)
        && Image(v, InodeBlock(ino), ib)
      ensures sound && i - nb > old(free) ==> ib[InodeWord(ino, i)] == NONE
    {
      hide Doing, Popped, PopResult, NoHead, Given;
      ib, i := ib0, nb;
      ghost var f := free;
      while i < DIRECT && i <= offset
        invariant |disk| == |old(disk)| && nb <= i <= offset + 1
        invariant (i == nb || i <= DIRECT) && (nb >= DIRECT ==> m == old(m))
        invariant sound && i - nb <= f ==>
          Doing(disk, v, n, m, free, ino, Whole(i), {InodeBlock(ino)}, v0, m0) && free == f - (i - nb)
          && Image(v, InodeBlock(ino), ib)
        invariant sound && i - nb > f ==> NoHead(disk, n) && ib[InodeWord(ino, i)] == NONE
      {
        ghost var ok := sound && i - nb < f;
        if sound && i - nb == f { NothingLeft(disk, v, n, m, ino, Whole(i), {InodeBlock(ino)}, v0, m0); }
        if sound && !ok { NoneFound(disk, n); }
        if ok { AddsDirect(ino, i); }
        var next := Give(n, ino, Data(ino, i), Whole(i), Whole(i + 1), {InodeBlock(ino)}, v0, m0, ok);
        ib := ib[InodeWord(ino, 1 + i) := next];
        i := i + 1;
      }
    }

    /** The single indirect block of unixdisk_alloc, and the blocks it refers to; where there are too few of
        these, the last are recorded as none. */
    method AllocSingle(n: nat, ino: nat, ib0: Block, nb: nat, i0: nat, offset: nat,
                       ghost v0: seq<Block>, ghost m0: Map, ghost sound: bool) returns (good: bool, ib: Block, i: nat)
      requires |disk| > 0 && i0 == Greatest(nb, DIRECT) < TWO_LEVELS && i0 <= offset
      requires sound ==> Doing(disk, v, n, m, free, ino, Whole(i0), {InodeBlock(ino)}, v0, m0) && ino < n * INODES
      requires sound ==> Image(v, InodeBlock(ino), ib0) && (nb <= DIRECT ==> free > 0)
      modifies this
      ensures |disk| == |old(disk)| && (good ==> i == Least(TWO_LEVELS, offset + 1))
      ensures sound ==> good
      ensures sound && old(free) + Slots(i0) >= Slots(i) ==>
        && Doing(disk, v, n, m, free, ino, Whole(i), {InodeBlock(ino)}, v0, m0)
        && Image(v, InodeBlock(ino), ib) && free + Slots(i) == old(free) + Slots(i0)
      ensures sound && old(free) + Slots(i0) < Slots(i) ==> NoneAt(disk, n, ino, ib, i)
    {
      hide Doing, Popped, PopResult, Adds, Open, Inv, NoHead, Given;
      ib, i := ib0, i0;
      ghost var open := {InodeBlock(ino)};
      ghost var total := free + Slots(i0);
      if nb <= DIRECT {
        if sound { AddsSingle(n, m, free, ino); }
        var b := Give(n, ino, Single(ino), Whole(i0), SingleShape(i0), open, v0, m0, sound);
        ib := ib[InodeWord(ino, 13) := b];
      }
      assert sound ==> Doing(disk, v, n, m, free, ino, SingleShape(i), open, v0, m0) && free + i + 1 == total;
      var to := Abs(n, ib[InodeWord(ino, 13)]);
      if sound { SingleIs(disk, v, n, m, free, ino, SingleShape(i), open, v0, m0, ib, to); }
      if to >= |disk| { return false, ib, i; }
      var img := disk[to];
      ghost var wide := open + {to};
      while i < TWO_LEVELS && i <= offset
        invariant |disk| == |old(disk)| && i0 <= i <= TWO_LEVELS && i <= offset + 1
        invariant sound && i + 1 <= total ==>
          && Doing(disk, v, n, m, free, ino, SingleShape(i), wide, v0, m0) && free + i + 1 == total
          && Image(v, InodeBlock(ino), ib) && Image(v, to, img) && to == Abs(n, At(m, Single(ino)))
        invariant sound ==> to != InodeBlock(ino) && n < to
        invariant sound && i + 1 > total ==> NoHead(disk, n) && i > DIRECT && img[i - 1 - DIRECT] == NONE
      {
        ghost var ok := sound && i + 1 < total;
        if sound && i + 1 == total { NothingLeft(disk, v, n, m, ino, SingleShape(i), wide, v0, m0); }
        if sound && !ok { NoneFound(disk, n); }
        if ok { AddsToSingle(n, m, free, ino, i, wide); }
        var next := Give(n, ino, Data(ino, i), SingleShape(i), SingleShape(i + 1), wide, v0, m0, ok);
        img := img[i - DIRECT := next];
        i := i + 1;
      }
      if sound && i + 1 <= total { CloseOne(disk, v, n, m, free, ino, SingleShape(i), open, v0, m0, to, img); }
      disk := disk[to := img];
      good := true;
    }

    /** One of the blocks the double indirect block refers to, and the blocks it refers to */
    method AllocSecond(n: nat, ino: nat, j: nat, img0: Block, nb: nat, i0: nat, offset: nat,
                       ghost ib: Block, ghost open: set<nat>, ghost v0: seq<Block>, ghost m0: Map, ghost ok: bool)
      returns (good: bool, img1: Block, i: nat)
      requires |disk| > 0 && j < E && i0 == Greatest(nb, Begin(j)) < Begin(j + 1) && i0 <= offset
      requires ok ==> Doing(disk, v, n, m, free, ino, DoubleShape(i0, Begun(nb, j)), open, v0, m0) && ino < n * INODES
      requires ok ==> Doubled(v, n, m, ino, ib, img0, open) && free + i0 + 2 + Begun(nb, j) >= Slots(offset + 1)
      modifies this
      ensures |disk| == |old(disk)| && (good ==> i == Least(Begin(j + 1), offset + 1))
      ensures ok ==> good && Doing(disk, v, n, m, free, ino, DoubleShape(i, j + 1), open, v0, m0)
      ensures ok ==> Doubled(v, n, m, ino, ib, img1, open) && free + i + j + 1 == old(free) + i0 + Begun(nb, j)
    {
      hide Doing, Popped, PopResult, Adds, Open, Inv, Doubled;
      img1, i := img0, i0;
      ghost var total := free + i0 + Begun(nb, j);
      if nb <= Begin(j) {
        ghost var was, wasM := v, m;
        if ok { AddsSecond(n, m, free, ino, j, open, v, ib, img1); }
        var b := Give(n, ino, Second(ino, j), DoubleShape(i0, j), DoubleShape(i0, j + 1), open, v0, m0, ok);
        if ok { DoubledOn(was, v, n, wasM, m, ino, ib, img1, open, j, b); }
        img1 := img1[j := b];
      }
      assert ok ==> Doing(disk, v, n, m, free, ino, DoubleShape(i, j + 1), open, v0, m0) && free + i + j + 1 == total;
      assert ok ==> Doubled(v, n, m, ino, ib, img1, open);
      var to := Abs(n, img1[j]);
      if ok { SecondIs(disk, v, n, m, free, ino, DoubleShape(i, j + 1), open, v0, m0, ib, img1, j, to); }
      if to >= |disk| { return false, img1, i; }
      var img := disk[to];
      ghost var wide := open + {to};
      while i < Begin(j + 1) && i <= offset
        invariant |disk| == |old(disk)| && i0 <= i <= Begin(j + 1) && i <= offset + 1
        invariant ok ==> Doing(disk, v, n, m, free, ino, DoubleShape(i, j + 1), wide, v0, m0) && free + i + j + 1 == total
        invariant ok ==> Doubled(v, n, m, ino, ib, img1, open) && to !in open
        invariant ok ==> Image(v, to, img) && to == Abs(n, At(m, Second(ino, j)))
      {
        if ok { AddsToSecond(n, m, free, ino, i, j, wide); }
        ghost var was, wasM := v, m;
        var next := Give(n, ino, Data(ino, i), DoubleShape(i, j + 1), DoubleShape(i + 1, j + 1), wide, v0, m0, ok);
        if ok { DoubledKept(was, v, n, wasM, m, ino, ib, img1, open, to, i - Begin(j), next); }
        img := img[i - Begin(j) := next];
        i := i + 1;
      }
      if ok { CloseOne(disk, v, n, m, free, ino, DoubleShape(i, j + 1), open, v0, m0, to, img); }
      disk := disk[to := img];
      good := true;
    }

    /** The double indirect block of unixdisk_alloc, and the blocks found through it */
    method AllocDouble(n: nat, ino: nat, ib0: Block, nb: nat, i0: nat, offset: nat,
                       ghost v0: seq<Block>, ghost m0: Map, ghost ok: bool) returns (good: bool, ib: Block, i: nat)
      requires |disk| > 0 && i0 == Greatest(nb, TWO_LEVELS) <= offset < MAX_BLOCKS
      requires ok ==> Doing(disk, v, n, m, free, ino, Whole(i0), {InodeBlock(ino)}, v0, m0) && ino < n * INODES
      requires ok ==> Image(v, InodeBlock(ino), ib0) && free + Slots(i0) >= Slots(offset + 1)
      modifies this
      ensures |disk| == |old(disk)| && (good ==> i == offset + 1)
      ensures ok ==> good && Doing(disk, v, n, m, free, ino, Whole(i), {InodeBlock(ino)}, v0, m0)
      ensures ok ==> Image(v, InodeBlock(ino), ib) && free + Slots(i) == old(free) + Slots(i0)
    {
      hide Doing, Popped, PopResult, Adds, Open, Inv;
      ib, i := ib0, i0;
      ghost var total, thin := free + Slots(i0), {InodeBlock(ino)};
      if nb <= TWO_LEVELS {
        if ok { AddsDouble(n, m, free, ino); }
        var b := Give(n, ino, Double(ino), Whole(i0), DoubleShape(i0, 0), thin, v0, m0, ok);
        ib := ib[InodeWord(ino, 14) := b];
      }
      assert ok ==> Doing(disk, v, n, m, free, ino, DoubleShape(i, Seconds(i)), thin, v0, m0);
      assert ok ==> free + i + 2 + Seconds(i) == total;
      var to := Abs(n, ib[InodeWord(ino, 14)]);
      if ok { DoubleIs(disk, v, n, m, free, ino, DoubleShape(i, Seconds(i)), thin, v0, m0, ib, to); }
      if to >= |disk| { return false, ib, i; }
      var img := disk[to];
      ghost var open := thin + {to};
      while i < MAX_BLOCKS && i <= offset
        invariant |disk| == |old(disk)| && i0 <= i <= offset + 1
        invariant i == nb || i == offset + 1 || (i - TWO_LEVELS) % E == 0
        invariant ok ==> Doing(disk, v, n, m, free, ino, DoubleShape(i, Seconds(i)), open, v0, m0)
        invariant ok ==> Doubled(v, n, m, ino, ib, img, open) && free + i + 2 + Seconds(i) == total
        invariant ok ==> to == Abs(n, At(m, Double(ino))) != InodeBlock(ino)
      {
        var j := (i - TWO_LEVELS) / E;
        SecondsAt(i, j, nb);
        good, img, i := AllocSecond(n, ino, j, img, nb, i, offset, ib, open, v0, m0, ok);
        if !good { return; }
        SecondsAfter(i, j, offset);
      }
      if ok { CloseOne(disk, v, n, m, free, ino, DoubleShape(i, Seconds(i)), thin, v0, m0, to, img); }
      disk := disk[to := img];
      good := true;
    }

    /** The data blocks recorded in one block, for offsets from begin on */
    method AllocRow(n: nat, to: nat, begin: nat, i0: nat, offset: nat) returns (i: nat)
      requires to < |disk| && begin <= i0 < begin + E && i0 <= offset
      modifies this`disk
      ensures |disk| == |old(disk)| && i == Least(begin + E, offset + 1)
    {
      i := i0;
      var img := disk[to];
      while i < begin + E && i <= offset
        invariant |disk| == |old(disk)| && i0 <= i <= begin + E && i <= offset + 1
      {
        var next := PopFree(n);
        img := img[i - begin := next];
        i := i + 1;
      }
      disk := disk[to := img];
    }

    /** One of the blocks a triple indirect block refers to, and the blocks found through it */
    method AllocPlane(n: nat, j: nat, img0: Block, nb: nat, i0: nat, offset: nat) returns (good: bool, img1: Block, i: nat)
      requires |disk| > 0 && j < E && Plane(j) <= i0 < Plane(j) + E * E && i0 <= offset
      modifies this`disk
      ensures |disk| == |old(disk)| && (good ==> i == Least(Plane(j) + E * E, offset + 1))
      ensures img1 == if nb <= Plane(j) then img0[j := PopResult(old(disk), n)] else img0
    {
      hide Popped, PopResult, Plane, Abs;
      img1, i := img0, i0;
      if nb <= Plane(j) {
        var b := PopFree(n);
        img1 := img1[j := b];
      }
      var to := Abs(n, img1[j]);
      if to >= |disk| { return false, img1, i; }
      var img2 := disk[to];
      while i < Plane(j) + E * E && i <= offset
        invariant |disk| == |old(disk)| && i0 <= i <= Plane(j) + E * E && i <= offset + 1
      {
        var k := (i - Plane(j)) / E;
        RowOf(i - Plane(j), k);
        if nb <= Plane(j) + k * E {
          var b := PopFree(n);
          img2 := img2[k := b];
        }
        var to2 := Abs(n, img2[k]);
        if to2 >= |disk| { return false, img1, i; }
        i := AllocRow(n, to2, Plane(j) + k * E, i, offset);
      }
      disk := disk[to := img2];
      good := true;
    }

    /** The triple indirect block of unixdisk_alloc, and the blocks past those of the double one. But it is the
        double indirect block that is read, changed and written: its first entry is then the second block popped. */
    method AllocTriple(n: nat, ino: nat, ib0: Block, nb: nat, offset: nat, ghost v0: seq<Block>, ghost m0: Map,
                       ghost ok: bool) returns (good: bool, ib: Block)
      requires |disk| > 0 && Greatest(nb, MAX_BLOCKS) <= offset < MAX_BLOCKS + E * E * E
      requires ok ==> Doing(disk, v, n, m, free, ino, Whole(MAX_BLOCKS), {InodeBlock(ino)}, v0, m0) && ino < n * INODES
      requires ok ==> Image(v, InodeBlock(ino), ib0) && nb <= MAX_BLOCKS
      modifies this`disk
      ensures |disk| == |old(disk)| && (ok && good ==> Severed(disk, n, m, ino))
    {
      hide Doing, Severed, Popped, PopResult, Plane, Abs;
      ib := ib0;
      var i := Greatest(nb, MAX_BLOCKS);
      if nb <= MAX_BLOCKS {
        var b := PopFree(n);
        ib := ib[InodeWord(ino, 15) := b];
      }
      var to := Abs(n, ib[InodeWord(ino, 14)]);
      if to >= |disk| { return false, ib; }
      var img := disk[to];
      ghost var d, second := old(disk), PopResult(disk, n);
      while i < MAX_BLOCKS + E * E * E && i <= offset
        invariant |disk| == |old(disk)| && Greatest(nb, MAX_BLOCKS) <= i <= offset + 1
        invariant if i == Greatest(nb, MAX_BLOCKS) then PopResult(disk, n) == second else i > offset || i >= Plane(1)
        invariant i > Greatest(nb, MAX_BLOCKS) && nb <= MAX_BLOCKS ==> img[0] == second
      {
        var j := (i - MAX_BLOCKS) / (E * E);
        PlaneOf(i, j);
        good, img, i := AllocPlane(n, j, img, nb, i, offset);
        if !good { return; }
      }
      disk := disk[to := img];
      good := true;
      if ok { SeveredBy(d, v, disk, n, m, free, ino, v0, m0, ib0); }
    }

    /** All the blocks of unixdisk_alloc up to offset, and where the direct blocks, or those of the single indirect
        block, run out, what is recorded for the last */
    method AllocBlocks(n: nat, ino: nat, ib0: Block, nb: nat, offset: nat, ghost v0: seq<Block>, ghost m0: Map,
                       ghost sound: bool) returns (good: bool, ib: Block)
      requires |disk| > 0 && nb <= offset < MAX_BLOCKS + E * E * E
      requires sound ==> Doing(disk, v, n, m, free, ino, Whole(nb), {InodeBlock(ino)}, v0, m0) && ino < n * INODES
      requires sound ==> Image(v, InodeBlock(ino), ib0) && nb <= MAX_BLOCKS
      modifies this
      ensures |disk| == |old(disk)| && (nb >= MAX_BLOCKS ==> m == old(m))
      ensures sound && old(free) + Slots(nb) >= Slots(offset + 1) && offset < MAX_BLOCKS ==>
        && good && Doing(disk, v, n, m, free, ino, Whole(offset + 1), {InodeBlock(ino)}, v0, m0)
        && Image(v, InodeBlock(ino), ib) && free + Slots(offset + 1) == old(free) + Slots(nb)
      ensures sound && old(free) + Slots(nb) < Slots(offset + 1) && offset < DIRECT ==>
        good && ib[InodeWord(ino, 1 + offset)] == NONE
      ensures sound && DIRECT < old(free) + Slots(nb) < Slots(offset + 1) && DIRECT <= offset < TWO_LEVELS ==>
        good && NoneAt(disk, n, ino, ib, offset + 1)
      ensures sound && offset >= MAX_BLOCKS && old(free) + Slots(nb) >= Slots(MAX_BLOCKS) && good ==>
        Severed(disk, n, m, ino)
    {
      hide Doing, Severed, Popped, PopResult, Inv;
      var last, i := Least(offset, MAX_BLOCKS - 1), nb;
      ghost var f := free;
      ghost var ok, single := sound && f + Slots(nb) >= Slots(last + 1), sound && f + Slots(nb) > DIRECT;
      ib, i := AllocDirect(n, ino, ib0, nb, offset, v0, m0, sound);
      good := true;
      if i < TWO_LEVELS && i <= offset {
        good, ib, i := AllocSingle(n, ino, ib, nb, i, offset, v0, m0, single);
        if !good { return; }
      }
      if i < MAX_BLOCKS && i <= offset {
        good, ib, i := AllocDouble(n, ino, ib, nb, i, last, v0, m0, ok);
        if !good { return; }
      }
      if offset >= MAX_BLOCKS {
        good, ib := AllocTriple(n, ino, ib, nb, offset, v0, m0, ok);
      }
    }

    /** unixdisk_alloc: the file gets all blocks up to offset, and keeps those it has. Where a direct block
        cannot be had, none is recorded. Past the blocks of the double indirect block, that loses an entry. */
    method Alloc(n: nat, ino: nat, ib0: Block, offset: nat, ghost sound: bool) returns (good: bool, ib: Block)
      requires InodeBlock(ino) < |disk| && ib0[InodeWord(ino, 0)] <= offset < MAX_BLOCKS + E * E * E
      requires sound ==> v == disk && Good(disk, n, m, free) && ino < n * INODES && Image(disk, InodeBlock(ino), ib0)
      modifies this
      ensures |disk| == |old(disk)|
      ensures sound && old(free) + Slots(ib0[InodeWord(ino, 0)]) >= Slots(offset + 1) && offset < MAX_BLOCKS ==>
        && good && v == disk && Good(disk, n, m, free) && Image(disk, InodeBlock(ino), ib)
        && Grown(old(disk), disk, n, old(m), m, ino) && Size(disk, ino) == offset + 1
        && free + Slots(offset + 1) == old(free) + Slots(ib0[InodeWord(ino, 0)])
        && Drawn(old(disk), disk, n, old(m), m, ino, free + Slots(offset + 1))
      ensures sound && old(free) + Slots(ib0[InodeWord(ino, 0)]) < Slots(offset + 1) && offset < DIRECT ==>
        good && ib[InodeWord(ino, 1 + offset)] == NONE
      ensures
        var had := old(free) + Slots(ib0[InodeWord(ino, 0)]);
        sound && DIRECT < had < Slots(offset + 1) && DIRECT <= offset < TWO_LEVELS ==>
          good && NoneAt(disk, n, ino, ib, offset + 1)
      ensures sound ==>
        (InOrder(old(disk), disk, n, ino, offset)
         <==> offset < MAX_BLOCKS && old(free) + Slots(ib0[InodeWord(ino, 0)]) >= Slots(offset + 1))
      ensures sound && offset >= MAX_BLOCKS && old(free) + Slots(ib0[InodeWord(ino, 0)]) >= Slots(MAX_BLOCKS) && good ==>
        Severed(disk, n, m, ino)
      ensures ib0[InodeWord(ino, 0)] >= MAX_BLOCKS ==> m == old(m)
    {
      hide Good, Doing, Inv, Grown, InOrder, Slots, Drawn;
      ghost var v0, m0, f := disk, m, free;
      var nb: nat := ib0[InodeWord(ino, 0)];
      ghost var ok := sound && f + Slots(nb) >= Slots(offset + 1) && offset < MAX_BLOCKS;
      if sound { Begins(disk, n, m, free, ino, ib0); }
      if sound && !ok { NotInOrder(disk, n, m, free, ino, offset); }
      good, ib := AllocBlocks(n, ino, ib0, nb, offset, v0, m0, sound);
      if !good { return; }
      if ok { Finished(disk, v, n, m, free, ino, Whole(offset + 1), v0, m0, f, ib, offset + 1); }
      ib := ib[InodeWord(ino, 0) := offset + 1];
      disk := disk[InodeBlock(ino) := ib];
      v := disk;
      if ok { GrownInOrder(v0, disk, n, m0, m, free, ino, offset); }
    }

    /** The triple indirect part of unixdisk_traverse, which starts from the double indirect block */
    method TraverseTriple(n: nat, ino: nat, ib: Block, offset: nat) returns (b: Word)
      requires MAX_BLOCKS <= offset < MAX_BLOCKS + E * E * E
    {
      b := Abs(n, ib[InodeWord(ino, 14)]);
      if b >= |disk| { return NONE; }
      var first := (offset - MAX_BLOCKS) / (E * E);
      b := Abs(n, disk[b][first]);
      if b >= |disk| { return NONE; }
      var second := (offset - MAX_BLOCKS - first * (E * E)) / E;
      b := Abs(n, disk[b][second]);
      if b >= |disk| { return NONE; }
      var third := offset - MAX_BLOCKS - first * (E * E) - second * E;
      b := Abs(n, disk[b][third]);
    }

    /** unixdisk_traverse: where data block offset of the file is */
    method Traverse(n: nat, ino: nat, ib: Block, offset: nat) returns (b: Word)
      requires offset < MAX_BLOCKS + E * E * E
      ensures Inv(disk, n, m, free) && Data(ino, offset) in m.at && Image(disk, InodeBlock(ino), ib) ==>
        b == Abs(n, At(m, Data(ino, offset)))
      ensures offset < DIRECT ==> b == Abs(n, ib[InodeWord(ino, 1 + offset)])
      ensures NoneAt(disk, n, ino, ib, offset + 1) ==> b == Abs(n, NONE)
    {
      hide Inv;
      ghost var sound := Inv(disk, n, m, free) && Data(ino, offset) in m.at && Image(disk, InodeBlock(ino), ib);
      if sound { Path(disk, n, m, free, ino, offset, ib); }
      if offset < DIRECT {
        b := Abs(n, ib[InodeWord(ino, 1 + offset)]);
      } else if offset < TWO_LEVELS {
        b := Abs(n, ib[InodeWord(ino, 13)]);
        if b >= |disk| { return NONE; }
        b := Abs(n, disk[b][offset - DIRECT]);
      } else if offset < MAX_BLOCKS {
        b := Abs(n, ib[InodeWord(ino, 14)]);
        if b >= |disk| { return NONE; }
        var first := (offset - TWO_LEVELS) / E;
        b := Abs(n, disk[b][first]);
        if b >= |disk| { return NONE; }
        var second := offset - TWO_LEVELS - first * E;
        b := Abs(n, disk[b][second]);
      } else {
        b := TraverseTriple(n, ino, ib, offset);
      }
    }

    /** unixdisk_pushfree */
    method PushFree(n: nat, b: Word) returns (ok: bool)
      requires |disk| > 0
      modifies this`disk
      ensures disk == Pushed(old(disk), n, b)
    {
      var head := Abs(n, disk[0][1]);
      if head >= |disk| { return false; }
      var node, sb := disk[head], disk[0];
      if sb[2] < G - 1 {
        var k: nat := sb[2];
        node := node[2 + k := b];
        sb := sb[2 := k + 1];
        disk := disk[head := node];
        disk := disk[0 := sb];
      } else {
        node := node[1 := sb[1]];
        sb := sb[1 := b][2 := 0];
        if Abs(n, b) >= |disk| { return false; }
        disk := disk[Abs(n, b) := node];
        disk := disk[0 := sb];
      }
      ok := true;
    }

    /** A block pushed from slot s, which drops it from shape sh of the file */
    method Take(n: nat, b: Word, ghost ino: nat, ghost s: Slot, ghost sh: Shape, ghost sh': Shape,
                ghost v0: seq<Block>, ghost m0: Map, ghost ok: bool)
      requires |disk| > 0
      requires ok ==> Freeing(disk, n, m, free, ino, sh, v0, m0)
      requires ok ==> Drops(sh, sh', s) && s.ino == ino && Bare(s, sh) && b == At(m0, s)
      modifies this
      ensures |disk| == |old(disk)|
      ensures ok ==> Freeing(disk, n, m, free, ino, sh', v0, m0) && free == old(free) + 1
    {
      hide Freeing, Drops, Bare, Pushed;
      ghost var d := disk;
      var _ := PushFree(n, b);
      if ok {
        TakeFreeing(d, n, m, free, ino, sh, v0, m0, s, sh');
        m, free := Move(m, s, Free(free)), free + 1;
      }
    }

    /** The direct blocks of unixdisk_free_file */
    method FreeDirect(n: nat, ino: nat, ib: Block, nb: nat,
                      ghost v0: seq<Block>, ghost m0: Map, ghost free0: nat, ghost ok: bool) returns (i: nat)
      requires |disk| > 0
      requires ok ==> Freeing(disk, n, m, free, ino, Whole(nb), v0, m0) && ino < n * INODES
      requires ok ==> Inv(v0, n, m0, free0) && Image(v0, InodeBlock(ino), ib)
      modifies this
      ensures |disk| == |old(disk)| && i == Least(DIRECT, nb)
      ensures ok ==> Freeing(disk, n, m, free, ino, Whole(nb).(lo := i), v0, m0) && free == old(free) + i
    {
      hide Freeing, Inv, Drops, Bare;
      i := 0;
      ghost var f := free;
      while i < DIRECT && i < nb
        invariant |disk| == |old(disk)| && i <= DIRECT && i <= nb
        invariant ok ==> Freeing(disk, n, m, free, ino, Whole(nb).(lo := i), v0, m0) && free == f + i
      {
        ghost var sh := Whole(nb).(lo := i);
        if ok {
          DropsData(ino, i, sh);
          FreeingHas(disk, n, m, free, ino, sh, v0, m0, Data(ino, i));
          Path(v0, n, m0, free0, ino, i, ib);
        }
        Take(n, ib[InodeWord(ino, 1 + i)], ino, Data(ino, i), sh, sh.(lo := i + 1), v0, m0, ok);
        i := i + 1;
      }
    }

    /** The blocks found through a single indirect block of unixdisk_free_file, and that block */
    method FreeSingle(n: nat, ino: nat, ib: Block, nb: nat, i0: nat,
                      ghost v0: seq<Block>, ghost m0: Map, ghost free0: nat, ghost ok: bool) returns (good: bool, i: nat)
      requires |disk| > 0 && i0 == DIRECT < nb
      requires ok ==> Freeing(disk, n, m, free, ino, Whole(nb).(lo := DIRECT), v0, m0) && ino < n * INODES
      requires ok ==> Inv(v0, n, m0, free0) && Image(v0, InodeBlock(ino), ib)
      modifies this
      ensures |disk| == |old(disk)| && (good ==> i == Least(TWO_LEVELS, nb))
      ensures ok ==> good && Freeing(disk, n, m, free, ino, Whole(nb).(lo := i, single := false), v0, m0)
      ensures ok ==> free == old(free) + i - DIRECT + 1
    {
      hide Freeing, Inv, Drops, Bare;
      i := i0;
      ghost var f, sh := free, Whole(nb).(lo := DIRECT);
      var to := Abs(n, ib[InodeWord(ino, 13)]);
      if ok { SingleRefs(disk, n, m, free, ino, sh, v0, m0, free0, ib, to); }
      if to >= |disk| { return false, i; }
      var img := disk[to];
      while i < TWO_LEVELS && i < nb
        invariant |disk| == |old(disk)| && DIRECT <= i <= TWO_LEVELS && i <= nb
        invariant ok ==> Freeing(disk, n, m, free, ino, Whole(nb).(lo := i), v0, m0) && free == f + i - DIRECT
      {
        sh := Whole(nb).(lo := i);
        if ok { DropsData(ino, i, sh); }
        Take(n, img[i - DIRECT], ino, Data(ino, i), sh, sh.(lo := i + 1), v0, m0, ok);
        i := i + 1;
      }
      sh := Whole(nb).(lo := i);
      if ok { DropsSingle(ino, sh); }
      Take(n, ib[InodeWord(ino, 13)], ino, Single(ino), sh, sh.(single := false), v0, m0, ok);
      good := true;
    }

    /** One of the blocks the double indirect block refers to, in unixdisk_free_file */
    method FreeSecond(n: nat, ino: nat, j: nat, img1: Block, nb: nat, i0: nat,
                      ghost v0: seq<Block>, ghost m0: Map, ghost ok: bool) returns (good: bool, i: nat)
      requires |disk| > 0 && j < E && i0 == Begin(j) < nb
      requires ok ==> Freeing(disk, n, m, free, ino, Beyond(nb, i0, j), v0, m0) && ino < n * INODES
      requires ok ==> img1[j] == At(m0, Second(ino, j))
      modifies this
      ensures |disk| == |old(disk)| && (good ==> i == Least(Begin(j + 1), nb))
      ensures ok ==> good && Freeing(disk, n, m, free, ino, Beyond(nb, i, j + 1), v0, m0)
      ensures ok ==> free == old(free) + i - i0 + 1
    {
      hide Freeing, Inv, Drops, Bare;
      i := i0;
      ghost var f := free;
      var to := Abs(n, img1[j]);
      if ok { SecondRefs(disk, n, m, free, ino, Beyond(nb, i0, j), v0, m0, j, to); }
      if to >= |disk| { return false, i; }
      var img := disk[to];
      while i < Begin(j + 1) && i < nb
        invariant |disk| == |old(disk)| && Begin(j) <= i <= Begin(j + 1) && i <= nb
        invariant ok ==> Freeing(disk, n, m, free, ino, Beyond(nb, i, j), v0, m0) && free == f + i - i0
      {
        if ok { DropsData(ino, i, Beyond(nb, i, j)); }
        Take(n, img[i - Begin(j)], ino, Data(ino, i), Beyond(nb, i, j), Beyond(nb, i + 1, j), v0, m0, ok);
        i := i + 1;
      }
      if ok { DropsSecond(ino, nb, i, j); }
      Take(n, img1[j], ino, Second(ino, j), Beyond(nb, i, j), Beyond(nb, i, j + 1), v0, m0, ok);
      good := true;
    }

    /** The double indirect block of unixdisk_free_file, and the blocks found through it */
    method FreeDouble(n: nat, ino: nat, ib: Block, nb: nat, i0: nat,
                      ghost v0: seq<Block>, ghost m0: Map, ghost free0: nat, ghost ok: bool) returns (good: bool, i: nat)
      requires |disk| > 0 && i0 == TWO_LEVELS < nb <= MAX_BLOCKS
      requires ok ==> Freeing(disk, n, m, free, ino, Beyond(nb, TWO_LEVELS, 0), v0, m0) && ino < n * INODES
      requires ok ==> Inv(v0, n, m0, free0) && Image(v0, InodeBlock(ino), ib)
      modifies this
      ensures |disk| == |old(disk)| && (good ==> i == nb)
      ensures ok ==> good && Freeing(disk, n, m, free, ino, Nothing(nb), v0, m0)
      ensures ok ==> free == old(free) + nb - TWO_LEVELS + Seconds(nb) + 1
    {
      hide Freeing, Inv, Drops, Bare;
      i := i0;
      ghost var f := free;
      var to := Abs(n, ib[InodeWord(ino, 14)]);
      if ok { DoubleRefs(disk, n, m, free, ino, Beyond(nb, TWO_LEVELS, 0), v0, m0, free0, ib, to); }
      if to >= |disk| { return false, i; }
      var img := disk[to];
      while i < MAX_BLOCKS && i < nb
        invariant |disk| == |old(disk)| && TWO_LEVELS <= i <= nb && (i == nb || (i - TWO_LEVELS) % E == 0)
        invariant ok ==> Freeing(disk, n, m, free, ino, Beyond(nb, i, Seconds(i)), v0, m0)
        invariant ok ==> free == f + i - TWO_LEVELS + Seconds(i)
      {
        var j := (i - TWO_LEVELS) / E;
        SecondsAt(i, j, i);
        good, i := FreeSecond(n, ino, j, img, nb, i, v0, m0, ok);
        if !good { return; }
        SecondsAfter(i, j, nb - 1);
      }
      if ok { DropsDouble(ino, nb); }
      Take(n, ib[InodeWord(ino, 14)], ino, Double(ino), Beyond(nb, nb, Seconds(nb)), Nothing(nb), v0, m0, ok);
      good := true;
    }

    /** unixdisk_free_file: every block of the file is pushed. */
    method FreeFile(n: nat, ino: nat, ib0: Block, ghost sound: bool) returns (good: bool)
      requires InodeBlock(ino) < |disk| && ib0[InodeWord(ino, 0)] <= MAX_BLOCKS
      requires sound ==> v == disk && Good(disk, n, m, free) && ino < n * INODES && Image(disk, InodeBlock(ino), ib0)
      modifies this
      ensures |disk| == |old(disk)|
      ensures sound ==> good && v == disk && Good(disk, n, m, free) && Emptied(old(disk), disk, n, old(m), m, ino)
      ensures sound ==> Size(disk, ino) == 0 && free == old(free) + Slots(ib0[InodeWord(ino, 0)])
    {
      hide Good, Freeing, Inv, Emptied;
      ghost var v0, m0, free0 := disk, m, free;
      var nb: nat := ib0[InodeWord(ino, 0)];
      if sound { FreeingBegins(disk, n, m, free, ino, ib0); }
      var i := FreeDirect(n, ino, ib0, nb, v0, m0, free0, sound);
      ghost var sh := Whole(nb).(lo := i);
      if i < TWO_LEVELS && i < nb {
        good, i := FreeSingle(n, ino, ib0, nb, i, v0, m0, free0, sound);
        if !good { return; }
        sh := Whole(nb).(lo := i, single := false);
      }
      if i < MAX_BLOCKS && i < nb {
        good, i := FreeDouble(n, ino, ib0, nb, i, v0, m0, free0, sound);
        if !good { return; }
        sh := Nothing(nb);
      }
      if sound { FreeingEnds(disk, n, m, free, ino, sh, v0, m0, free0, ib0); }
      disk := disk[InodeBlock(ino) := ib0[InodeWord(ino, 0) := 0]];
      v := disk;
      good := true;
    }

    ghost predicate Valid()
      reads this
    {
      v == disk && Good(disk, Word0(disk, 0, 0), m, free)
    }

    ghost function Inodes(): nat
      reads this
    {
      Word0(disk, 0, 0) * INODES
    }

    /** The blocks of file ino */
    ghost function File(ino: nat): seq<Block>
      reads this
    {
      Contents(disk, Word0(disk, 0, 0), m, ino, Size(disk, ino))
    }

    /** unixdisk_get_snapshot */
    method GetSnapshot(ino: nat) returns (ok: bool, n: nat, ib: Block)
      requires |disk| > 0
      ensures n == Word0(disk, 0, 0)
      ensures ok <==> ino < n * INODES && InodeBlock(ino) < |disk|
      ensures ok ==> Image(disk, InodeBlock(ino), ib)
    {
      n, ib := disk[0][0], disk[0];
      if ino >= n * INODES || InodeBlock(ino) >= |disk| { return false, n, ib; }
      ib := disk[InodeBlock(ino)];
      ok := true;
    }

    /** unixdisk_read; a file too large for the references of an inode is an assertion that fails. */
    method Read(ino: nat, offset: nat) returns (ok: bool, b: Block)
      requires |disk| > 0
      ensures Valid() ==> (ok <==> ino < Inodes() && offset < |File(ino)|)
      ensures Valid() && ok ==> b == File(ino)[offset]
    {
      var n;
      ok, n, b := GetSnapshot(ino);
      if !ok { return; }
      if offset >= b[InodeWord(ino, 0)] { return false, b; }
      ghost var sound := Valid();
      if sound { DataIn(disk, n, m, free, ino, offset); }
      if offset >= MAX_BLOCKS + E * E * E { return false, b; }
      var to := Traverse(n, ino, b, offset);
      if to >= |disk| { return false, b; }
      b := disk[to];
    }

    /** What the free block with p others below it on the stack holds */
    ghost function Unused(p: int): Block
      reads this
    {
      StackBlock(disk, Word0(disk, 0, 0), m, p)
    }

    /** There are enough free blocks for file ino to have a block at offset. */
    ghost predicate Enough(ino: nat, offset: nat)
      reads this
    {
      offset < |File(ino)| || free + Slots(|File(ino)|) >= Slots(offset + 1)
    }

    /** Every block on the way to that at offset can be had, if not that itself. */
    ghost predicate Strays(ino: nat, offset: nat)
      reads this
    {
      offset < DIRECT || (offset < TWO_LEVELS && free + Slots(|File(ino)|) > DIRECT)
    }

    /** unixdisk_write. The disk is in order, with the file grown, exactly if there were enough free blocks. When
        they run out before a direct block, or one found through a single indirect block that could be had, the
        block is written over the last block of inodes. Past the blocks that the double indirect block leads to,
        a write that succeeds destroys that block, or its first entry. */
    method Write(ino: nat, offset: nat, blk: Block) returns (ok: bool)
      requires Valid() && (ino < Inodes() ==> offset < MAX_BLOCKS + E * E * E)
      modifies this
      ensures ino >= old(Inodes()) ==> !ok && disk == old(disk) && Valid() && m == old(m) && free == old(free)
      ensures ino < old(Inodes()) && old(Enough(ino, offset)) && offset < MAX_BLOCKS ==>
        && ok && Valid() && Inodes() == old(Inodes())
        && |File(ino)| == Greatest(|old(File(ino))|, offset + 1) && File(ino)[offset] == blk
        && (forall k :: 0 <= k < |old(File(ino))| && k != offset ==> File(ino)[k] == old(File(ino))[k])
        && (forall i :: 0 <= i < Inodes() && i != ino ==> File(i) == old(File(i)))
        && free + Slots(|File(ino)|) == old(free) + Slots(|old(File(ino))|)
      ensures ino < old(Inodes()) && old(Enough(ino, offset)) && offset < MAX_BLOCKS ==>
        forall k :: |old(File(ino))| <= k < offset ==>
          File(ino)[k] == old(Unused(free + Slots(|File(ino)|) - Slots(k + 1)))
      ensures |disk| == |old(disk)|
      ensures ino < old(Inodes()) ==>
        (InOrder(old(disk), disk, old(Inodes()) / INODES, ino, offset) <==> offset < MAX_BLOCKS && old(Enough(ino, offset)))
      ensures ino < old(Inodes()) && offset >= MAX_BLOCKS && old(|File(ino)|) == MAX_BLOCKS && ok ==>
        var n := old(Inodes()) / INODES;
        && Double(ino) in old(m).at && Second(ino, 0) in old(m).at
        && var to := Abs(n, old(m).at[Double(ino)]);
           to < |disk| && (disk[to] == blk || disk[to][0] != old(m).at[Second(ino, 0)])
      ensures ino < old(Inodes()) && !old(Enough(ino, offset)) && old(Strays(ino, offset)) ==>
        ok && old(Inodes()) / INODES < |disk| && disk[old(Inodes()) / INODES] == blk
    {
      hide Good, Inv, Keeps, Rest, Image, Contents, Slots, Size, Abs, InOrder, NoneAt, Drawn, StackBlock;
      var n, ib;
      ghost var d0, m0, f0 := disk, m, free;
      InodesThere(disk, Word0(disk, 0, 0), m, free, ino);
      ok, n, ib := GetSnapshot(ino);
      if !ok { return; }
      ImageSize(disk, ino, ib);
      ghost var enough := Enough(ino, offset) && offset < MAX_BLOCKS;
      if !enough { NotInOrder(d0, n, m0, f0, ino, offset); }
      if offset >= ib[InodeWord(ino, 0)] {
        ok, ib := Alloc(n, ino, ib, offset, true);
        if enough {
          SameFiles(d0, disk, n, m0, f0, m, ino, -1);
          GapFile(d0, disk, n, m0, f0, m, free, ino, offset + 1);
        }
        if !ok { return; }
      }
      if enough {
        DataIn(disk, n, m, free, ino, offset);
        GoodInv(disk, n, m, free);
        WrittenFiles(disk, n, m, free, ino, offset, blk);
      } else {
        AbsNone(n);
      }
      var to := Traverse(n, ino, ib, offset);
      if to >= |disk| { return false; }
      disk := disk[to := blk];
      v := disk;
      if enough { IsInOrder(d0, disk, n, m, free, ino, offset); }
    }

    /** unixdisk_setsize: a file can only be emptied. */
    method SetSize(ino: nat, nblocks: nat) returns (r: int)
      requires Valid() && ino < Inodes()
      modifies this
      ensures Valid() && Inodes() == old(Inodes()) && |disk| == |old(disk)|
      ensures r == if nblocks == |old(File(ino))| then nblocks else if nblocks > 0 then -1 else 0
      ensures File(ino) == if r == 0 then [] else old(File(ino))
      ensures forall i :: 0 <= i < Inodes() && i != ino ==> File(i) == old(File(i))
      ensures free + Slots(|File(ino)|) == old(free) + Slots(|old(File(ino))|)
    {
      hide Good, Inv, Keeps, Rest, Image, Contents, Slots, Size;
      ghost var d0, m0, f0 := disk, m, free;
      InodesThere(disk, Word0(disk, 0, 0), m, free, ino);
      NoSlots();
      var ok, n, ib := GetSnapshot(ino);
      ImageSize(disk, ino, ib);
      if nblocks == ib[InodeWord(ino, 0)] { return nblocks; }
      if nblocks > 0 { return -1; }
      var _ := FreeFile(n, ino, ib, true);
      InodesThere(disk, n, m, free, ino);
      SameFiles(d0, disk, n, m0, f0, m, ino, ino);
      r := 0;
    }
  }

  function Least(a: nat, b: nat): nat {
    if a < b then a else b
  }

  function Greatest(a: nat, b: nat): nat {
    if a < b then b else a
  }

  function SingleShape(i: nat): Shape {
    Shape(0, i, true, false, 0, 0)
  }

  lemma AddsSingle(n: nat, m: Map, free: nat, ino: nat)
    ensures Adds(Whole(DIRECT), SingleShape(DIRECT), Single(ino))
    ensures Open(n, m, free, Single(ino), Whole(DIRECT), {InodeBlock(ino)})
  {
  }

  lemma AddsToSingle(n: nat, m: Map, free: nat, ino: nat, i: nat, open: set<nat>)
    requires DIRECT <= i < TWO_LEVELS && Abs(n, At(m, Single(ino))) in open
    ensures Adds(SingleShape(i), SingleShape(i + 1), Data(ino, i))
    ensures Open(n, m, free, Data(ino, i), SingleShape(i), open)
  {
  }

  /** A block of the file can be read into memory: it is not one of those with an image yet. */
  lemma OpenMore(d: seq<Block>, v: seq<Block>, n: nat, m: Map, free: nat, ino: nat, sh: Shape, open: set<nat>,
                 v0: seq<Block>, m0: Map, s: Slot)
    requires Doing(d, v, n, m, free, ino, sh, open, v0, m0) && !s.Free? && s in m.at
    requires Abs(n, At(m, s)) !in open
    ensures var to := Abs(n, At(m, s));
      n < to < |v| && to < |d| && d[to] == v[to] && Doing(d, v, n, m, free, ino, sh, open + {to}, v0, m0)
  {
    hide Referred, SuperOk, Domain, Keeps, Part, Rest, Drawn;
    InvFits(v, n, m, free);
    AbsDistinct(n, m, s, s);
    forall t | t in m.at && t.Free? ensures Abs(n, m.at[t]) !in open + {Abs(n, At(m, s))} { AbsDistinct(n, m, s, t); }
  }

  /** A block is written back. */
  lemma CloseOne(d: seq<Block>, v: seq<Block>, n: nat, m: Map, free: nat, ino: nat, sh: Shape, open: set<nat>,
                 v0: seq<Block>, m0: Map, to: nat, img: Block)
    requires Doing(d, v, n, m, free, ino, sh, open + {to}, v0, m0) && to < |d| && Image(v, to, img)
    ensures Doing(d[to := img], v, n, m, free, ino, sh, open, v0, m0)
  {
    hide Referred, SuperOk, Domain, Keeps, Part, Rest, Inv, Drawn;
  }

  lemma SingleIs(d: seq<Block>, v: seq<Block>, n: nat, m: Map, free: nat, ino: nat, sh: Shape, open: set<nat>,
                 v0: seq<Block>, m0: Map, ib: Block, to: nat)
    requires Doing(d, v, n, m, free, ino, sh, open, v0, m0) && sh.single && open == {InodeBlock(ino)}
    requires ino < n * INODES
    requires Image(v, InodeBlock(ino), ib) && to == Abs(n, ib[InodeWord(ino, 13)])
    ensures to == Abs(n, At(m, Single(ino))) && n < to < |v| && to < |d| && d[to] == v[to]
    ensures Doing(d, v, n, m, free, ino, sh, open + {to}, v0, m0)
  {
    hide SuperOk, Domain, Keeps, Rest, Drawn;
    var s := Single(ino);
    assert s in m.at && Referred(v, n, m, free, s);
    InvFits(v, n, m, free);
    AbsDistinct(n, m, s, s);
    OpenMore(d, v, n, m, free, ino, sh, open, v0, m0, s);
  }

  function DoubleShape(i: nat, to: nat): Shape {
    Shape(0, i, true, true, 0, to)
  }

  /** The first block found through block j of those the double indirect block refers to */
  function Begin(j: nat): nat {
    TWO_LEVELS + j * E
  }

  /** How many of those there are when block j is next */
  function Begun(nb: nat, j: nat): nat {
    if nb <= Begin(j) then j else j + 1
  }

  /** The inode and the double indirect block have images. */
  ghost predicate Doubled(v: seq<Block>, n: nat, m: Map, ino: nat, ib: Block, img: Block, open: set<nat>) {
    var b := Abs(n, At(m, Double(ino)));
    && open == {InodeBlock(ino), b} && Image(v, InodeBlock(ino), ib) && Image(v, b, img)
    && InodeBlock(ino) <= n < b && Double(ino) in m.at
  }

  lemma DoubledKept(v: seq<Block>, w: seq<Block>, n: nat, m: Map, m': Map, ino: nat, ib: Block, img: Block,
                    open: set<nat>, b: nat, u: nat, x: Word)
    requires Doubled(v, n, m, ino, ib, img, open) && Filed(v, w, b, u, x) && b !in open && Same(m, m', Double(ino))
    ensures Doubled(w, n, m', ino, ib, img, open)
  {
  }

  lemma AddsDouble(n: nat, m: Map, free: nat, ino: nat)
    ensures Adds(Whole(TWO_LEVELS), DoubleShape(TWO_LEVELS, 0), Double(ino))
    ensures Open(n, m, free, Double(ino), Whole(TWO_LEVELS), {InodeBlock(ino)})
  {
  }

  lemma DoubledOn(v: seq<Block>, w: seq<Block>, n: nat, m: Map, m': Map, ino: nat, ib: Block, img: Block,
                  open: set<nat>, j: nat, x: Word)
    requires j < E && Doubled(v, n, m, ino, ib, img, open) && Filed(v, w, Abs(n, At(m, Double(ino))), j, x)
    requires Same(m, m', Double(ino))
    ensures Doubled(w, n, m', ino, ib, img[j := x], open)
  {
  }

  lemma AddsSecond(n: nat, m: Map, free: nat, ino: nat, j: nat, open: set<nat>, v: seq<Block>, ib: Block, img: Block)
    requires Doubled(v, n, m, ino, ib, img, open)
    ensures Adds(DoubleShape(Begin(j), j), DoubleShape(Begin(j), j + 1), Second(ino, j))
    ensures Open(n, m, free, Second(ino, j), DoubleShape(Begin(j), j), open)
  {
  }

  lemma AddsToSecond(n: nat, m: Map, free: nat, ino: nat, i: nat, j: nat, open: set<nat>)
    requires Begin(j) <= i < Begin(j + 1) && Abs(n, At(m, Second(ino, j))) in open
    ensures Adds(DoubleShape(i, j + 1), DoubleShape(i + 1, j + 1), Data(ino, i))
    ensures Open(n, m, free, Data(ino, i), DoubleShape(i, j + 1), open)
    ensures HolderOf(free, Data(ino, i)) == Holder.Slot(Second(ino, j)) && HolderWord(Data(ino, i)) == i - Begin(j)
  {
    assert (i - TWO_LEVELS) / E == j && (i - TWO_LEVELS) % E == i - Begin(j);
  }

  lemma SecondsAt(i: nat, j: nat, nb: nat)
    requires i >= TWO_LEVELS && j == (i - TWO_LEVELS) / E && (i == nb || (i > nb && (i - TWO_LEVELS) % E == 0))
    ensures i == Greatest(nb, Begin(j)) < Begin(j + 1) && Seconds(i) == Begun(nb, j)
  {
  }

  lemma SecondsAfter(i: nat, j: nat, offset: nat)
    requires i == Least(Begin(j + 1), offset + 1) && offset >= Begin(j)
    ensures Seconds(i) == j + 1 && (i == offset + 1 || (i - TWO_LEVELS) % E == 0)
  {
  }

  lemma DoubleIs(d: seq<Block>, v: seq<Block>, n: nat, m: Map, free: nat, ino: nat, sh: Shape, open: set<nat>,
                 v0: seq<Block>, m0: Map, ib: Block, to: nat)
    requires Doing(d, v, n, m, free, ino, sh, open, v0, m0) && sh.double && open == {InodeBlock(ino)}
    requires ino < n * INODES
    requires Image(v, InodeBlock(ino), ib) && to == Abs(n, ib[InodeWord(ino, 14)])
    ensures to == Abs(n, At(m, Double(ino))) && n < to < |v| && to < |d| && d[to] == v[to]
    ensures Doing(d, v, n, m, free, ino, sh, open + {to}, v0, m0) && Doubled(v, n, m, ino, ib, d[to], open + {to})
  {
    hide SuperOk, Domain, Keeps, Rest, Drawn;
    var s := Double(ino);
    assert s in m.at && Referred(v, n, m, free, s);
    InvFits(v, n, m, free);
    AbsDistinct(n, m, s, s);
    OpenMore(d, v, n, m, free, ino, sh, open, v0, m0, s);
  }

  lemma SecondIs(d: seq<Block>, v: seq<Block>, n: nat, m: Map, free: nat, ino: nat, sh: Shape, open: set<nat>,
                 v0: seq<Block>, m0: Map, ib: Block, img: Block, j: nat, to: nat)
    requires Doing(d, v, n, m, free, ino, sh, open, v0, m0) && sh.from <= j < sh.to && j < E && ino < n * INODES
    requires Doubled(v, n, m, ino, ib, img, open) && to == Abs(n, img[j])
    ensures to == Abs(n, At(m, Second(ino, j))) && n < to < |v| && to < |d| && d[to] == v[to] && to !in open
    ensures Doing(d, v, n, m, free, ino, sh, open + {to}, v0, m0)
  {
    hide SuperOk, Domain, Keeps, Rest, Drawn;
    var s := Second(ino, j);
    assert s in m.at && Referred(v, n, m, free, s);
    InvFits(v, n, m, free);
    AbsDistinct(n, m, s, Double(ino));
    OpenMore(d, v, n, m, free, ino, sh, open, v0, m0, s);
  }

  /** After a file grew: its blocks and those of the others are where and what they were. */
  ghost predicate Grown(v0: seq<Block>, v: seq<Block>, n: nat, m0: Map, m: Map, ino: nat) {
    && Keeps(v0, v, n, m0, m, -1) && Rest(m0, m, ino)
    && forall i :: 0 <= i < n * INODES && i != ino ==> Size(v, i) == Size(v0, i)
  }

  lemma Begins(d: seq<Block>, n: nat, m: Map, free: nat, ino: nat, ib: Block)
    requires Good(d, n, m, free) && ino < n * INODES && Image(d, InodeBlock(ino), ib)
    ensures Doing(d, d, n, m, free, ino, Whole(ib[InodeWord(ino, 0)]), {InodeBlock(ino)}, d, m)
    ensures ib[InodeWord(ino, 0)] <= MAX_BLOCKS
  {
    hide Referred, SuperOk, Domain, Abs;
    assert FileOk(d, m, ino);
    InvFits(d, n, m, free);
    forall s | s in m.at ensures Abs(n, m.at[s]) > n && Abs(n, m.at[s]) < |d| { AbsDistinct(n, m, s, s); }
  }

  /** A new size is written to the inode. */
  lemma SizeWord(v: seq<Block>, n: nat, m: Map, free: nat, ino: nat, ib: Block, nb: Word)
    requires Inv(v, n, m, free) && ino < n * INODES && Image(v, InodeBlock(ino), ib)
    ensures var w := v[InodeBlock(ino) := ib[InodeWord(ino, 0) := nb]];
      && Inv(w, n, m, free) && Size(w, ino) == nb
      && (forall i :: 0 <= i < n * INODES && i != ino ==> Size(w, i) == Size(v, i))
      && forall s :: s in m.at && s.Data? ==> SameBlock(v, w, n, m, m, s)
  {
    hide Abs, Domain, Bijective, Referred, SuperOk, HolderOf, HolderWord, HolderBlock;
    var w := v[InodeBlock(ino) := ib[InodeWord(ino, 0) := nb]];
    InvFits(v, n, m, free);
    SizeSuper(v, n, m, free, ino, ib, nb);
    forall s | s in m.at ensures Referred(w, n, m, free, s) { SizeRef(v, n, m, free, ino, ib, nb, s); }
    forall s | s in m.at && s.Data? ensures SameBlock(v, w, n, m, m, s) { AbsDistinct(n, m, s, s); }
  }

  lemma SizeRef(v: seq<Block>, n: nat, m: Map, free: nat, ino: nat, ib: Block, nb: Word, s: Slot)
    requires Inv(v, n, m, free) && ino < n * INODES && Image(v, InodeBlock(ino), ib) && s in m.at
    ensures Referred(v[InodeBlock(ino) := ib[InodeWord(ino, 0) := nb]], n, m, free, s)
  {
    hide Abs, Bijective, SuperOk, HolderOf, HolderWord;
    InvFits(v, n, m, free);
    assert Referred(v, n, m, free, s) && Held(m, free, s);
    var h := HolderOf(free, s);
    if h.Slot? { AbsDistinct(n, m, h.slot, h.slot); }
    NoSizeWord(free, s, ino);
  }

  lemma SizeSuper(v: seq<Block>, n: nat, m: Map, free: nat, ino: nat, ib: Block, nb: Word)
    requires Inv(v, n, m, free) && ino < n * INODES && Image(v, InodeBlock(ino), ib)
    ensures SuperOk(v[InodeBlock(ino) := ib[InodeWord(ino, 0) := nb]], n, m, free)
  {
    hide Abs, Bijective, Referred;
    InvFits(v, n, m, free);
    if free > 0 {
      assert Free(0) in m.at;
      AbsDistinct(n, m, Free(0), Free(0));
    }
  }

  lemma NoSizeWord(free: nat, s: Slot, ino: nat)
    ensures HolderOf(free, s).Inode? && InodeBlock(HolderOf(free, s).ino) == InodeBlock(ino) ==>
      HolderWord(s) != InodeWord(ino, 0)
  {
  }

  lemma Finished(d: seq<Block>, v: seq<Block>, n: nat, m: Map, free: nat, ino: nat, sh: Shape, v0: seq<Block>, m0: Map,
                 free0: nat, ib: Block, nb: nat)
    requires Good(v0, n, m0, free0) && Doing(d, v, n, m, free, ino, sh, {InodeBlock(ino)}, v0, m0) && ino < n * INODES
    requires Image(v, InodeBlock(ino), ib) && nb <= MAX_BLOCKS && sh == Whole(nb)
    ensures var w := v[InodeBlock(ino) := ib[InodeWord(ino, 0) := nb]];
      && d[InodeBlock(ino) := ib[InodeWord(ino, 0) := nb]] == w
      && Good(w, n, m, free) && Grown(v0, w, n, m0, m, ino) && Size(w, ino) == nb
      && Drawn(v0, w, n, m0, m, ino, free + Slots(nb))
  {
    hide Inv, Whole, Drawn, Slots, ShapeSlots;
    var w := v[InodeBlock(ino) := ib[InodeWord(ino, 0) := nb]];
    WholeSlots(nb);
    DrawnStill(v0, v, w, n, m0, m, ino, free + Slots(nb));
    SizeWord(v, n, m, free, ino, ib, nb);
    OthersOk(v0, w, n, m0, m, ino);
    KeepsOn(v0, v, w, n, m0, m, m, -1);
    assert d[InodeBlock(ino) := ib[InodeWord(ino, 0) := nb]] == w;
  }

  lemma WholeSlots(nb: nat)
    ensures ShapeSlots(Whole(nb)) == Slots(nb)
  {
  }

  lemma DrawnStill(v0: seq<Block>, v: seq<Block>, w: seq<Block>, n: nat, m0: Map, m: Map, ino: nat, total: int)
    requires Drawn(v0, v, n, m0, m, ino, total) && |w| == |v| && forall b :: n < b < |v| ==> w[b] == v[b]
    ensures Drawn(v0, w, n, m0, m, ino, total)
  {
  }

  /** What a new data block of the file holds */
  lemma GapIs(v0: seq<Block>, v: seq<Block>, n: nat, m0: Map, free0: nat, m: Map, ino: nat, total: int, k: nat)
    requires Good(v0, n, m0, free0) && Drawn(v0, v, n, m0, m, ino, total) && ino < n * INODES
    requires Size(v0, ino) <= k && Data(ino, k) in m.at
    ensures BlockAt(v, n, m, Data(ino, k)) == StackBlock(v0, n, m0, total - Slots(k + 1))
  {
    hide Inv, Slots, Abs;
    assert FileOk(v0, m0, ino);
    assert !InShape(Data(ino, k), Whole(Size(v0, ino)));
    assert Stayed(v0, v, n, m0, m, Free(total - Slots(k + 1)), Data(ino, k));
  }

  lemma GapFile(v0: seq<Block>, v: seq<Block>, n: nat, m0: Map, free0: nat, m: Map, free: nat, ino: nat, size: nat)
    requires Good(v0, n, m0, free0) && Good(v, n, m, free) && ino < n * INODES && Size(v, ino) == size
    requires Drawn(v0, v, n, m0, m, ino, free + Slots(size))
    ensures forall k :: Size(v0, ino) <= k < size ==>
      Contents(v, n, m, ino, size)[k] == StackBlock(v0, n, m0, free + Slots(size) - Slots(k + 1))
  {
    hide Good, Drawn, BlockAt, StackBlock, Slots, Size;
    forall k | Size(v0, ino) <= k < size
      ensures Contents(v, n, m, ino, size)[k] == StackBlock(v0, n, m0, free + Slots(size) - Slots(k + 1))
    {
      DataIn(v, n, m, free, ino, k);
      GapIs(v0, v, n, m0, free0, m, ino, free + Slots(size), k);
    }
  }

  /** What the free block with p others below it on the stack holds */
  ghost function StackBlock(v: seq<Block>, n: nat, m: Map, p: int): Block {
    if p >= 0 then BlockAt(v, n, m, Free(p)) else Nulls(E)
  }

  lemma OthersOk(v0: seq<Block>, w: seq<Block>, n: nat, m0: Map, m: Map, ino: nat)
    requires forall i :: 0 <= i < n * INODES ==> FileOk(v0, m0, i)
    requires Rest(m0, m, ino) && forall i :: 0 <= i < n * INODES && i != ino ==> Size(w, i) == Size(v0, i)
    ensures forall i :: 0 <= i < n * INODES && i != ino ==> FileOk(w, m, i)
  {
    hide Whole, InShape, Size;
    forall i | 0 <= i < n * INODES && i != ino ensures FileOk(w, m, i) {
      assert FileOk(v0, m0, i);
      forall s: Slot | !s.Free? && s.ino == i ensures s in m.at <==> InShape(s, Whole(Size(w, i))) {
        assert Same(m0, m, s);
      }
    }
  }

  /** The references on the way to a data block */
  lemma Path(d: seq<Block>, n: nat, m: Map, free: nat, ino: nat, offset: nat, ib: Block)
    requires Inv(d, n, m, free) && Data(ino, offset) in m.at && Image(d, InodeBlock(ino), ib)
    ensures offset < MAX_BLOCKS
    ensures offset < DIRECT ==> ib[InodeWord(ino, 1 + offset)] == At(m, Data(ino, offset))
    ensures DIRECT <= offset < TWO_LEVELS ==>
      var b := Abs(n, ib[InodeWord(ino, 13)]);
      b < |d| && d[b][offset - DIRECT] == At(m, Data(ino, offset))
    ensures TWO_LEVELS <= offset < MAX_BLOCKS ==>
      var b := Abs(n, ib[InodeWord(ino, 14)]);
      && b < |d|
      && var c := Abs(n, d[b][(offset - TWO_LEVELS) / E]);
         c < |d| && d[c][(offset - TWO_LEVELS) % E] == At(m, Data(ino, offset))
  {
    hide SuperOk, Abs;
    var s := Data(ino, offset);
    InvFits(d, n, m, free);
    assert Referred(d, n, m, free, s) && Held(m, free, s);
    if DIRECT <= offset < TWO_LEVELS {
      var t := Single(ino);
      assert t in m.at && Referred(d, n, m, free, t);
      AbsDistinct(n, m, t, t);
    } else if TWO_LEVELS <= offset < MAX_BLOCKS {
      var t, u := Second(ino, (offset - TWO_LEVELS) / E), Double(ino);
      assert t in m.at && Referred(d, n, m, free, t) && Held(m, free, t);
      assert u in m.at && Referred(d, n, m, free, u);
      AbsDistinct(n, m, t, t);
      AbsDistinct(n, m, u, u);
    }
  }

  // ---- emptying a file ----

  /** While file ino is emptied: it has the blocks of sh still, and nothing else changed since v0 and m0. */
  ghost predicate Freeing(v: seq<Block>, n: nat, m: Map, free: nat, ino: nat, sh: Shape, v0: seq<Block>, m0: Map) {
    && Inv(v, n, m, free) && Part(m, ino, sh) && Rest(m0, m, ino) && Keeps(v0, v, n, m0, m, ino)
    && |v| == |v0| && |m.own| == |m0.own| && (forall c :: 0 < c <= n && c < |v| ==> v[c] == v0[c])
    && forall s: Slot :: !s.Free? && s in m.at ==> s in m0.at && m.at[s] == m0.at[s]
  }

  ghost predicate Drops(sh: Shape, sh': Shape, s: Slot) {
    && !s.Free? && InShape(s, sh)
    && forall t: Slot :: !t.Free? && t.ino == s.ino ==> (InShape(t, sh') <==> InShape(t, sh) && t != s)
  }

  /** Nothing that is left is found through s. */
  predicate Bare(s: Slot, sh: Shape) {
    match s
    case Data(_, _) => true
    case Single(_) => sh.lo >= TWO_LEVELS || sh.lo >= sh.hi
    case Double(_) => sh.from >= sh.to
    case Second(_, j) => sh.lo >= Begin(j + 1) || sh.lo >= sh.hi
    case Free(_) => false
  }

  /** What is left of a file once its single indirect block is gone */
  function Beyond(nb: nat, lo: nat, from: nat): Shape {
    Shape(lo, nb, false, true, from, Seconds(nb))
  }

  function Nothing(nb: nat): Shape {
    Shape(nb, nb, false, false, Seconds(nb), Seconds(nb))
  }

  lemma DropsData(ino: nat, i: nat, sh: Shape)
    requires i == sh.lo < sh.hi
    ensures Drops(sh, sh.(lo := i + 1), Data(ino, i)) && Bare(Data(ino, i), sh)
  {
  }

  lemma DropsSingle(ino: nat, sh: Shape)
    requires sh.single && (sh.lo >= TWO_LEVELS || sh.lo >= sh.hi)
    ensures Drops(sh, sh.(single := false), Single(ino)) && Bare(Single(ino), sh)
  {
  }

  lemma DropsSecond(ino: nat, nb: nat, i: nat, j: nat)
    requires i == Least(Begin(j + 1), nb) && nb > Begin(j)
    ensures Drops(Beyond(nb, i, j), Beyond(nb, i, j + 1), Second(ino, j)) && Bare(Second(ino, j), Beyond(nb, i, j))
  {
  }

  lemma DropsDouble(ino: nat, nb: nat)
    ensures Drops(Beyond(nb, nb, Seconds(nb)), Nothing(nb), Double(ino))
    ensures Bare(Double(ino), Beyond(nb, nb, Seconds(nb)))
  {
  }

  lemma FreeingHas(v: seq<Block>, n: nat, m: Map, free: nat, ino: nat, sh: Shape, v0: seq<Block>, m0: Map, s: Slot)
    requires Freeing(v, n, m, free, ino, sh, v0, m0) && !s.Free? && s.ino == ino && InShape(s, sh)
    ensures s in m.at && s in m0.at && m.at[s] == m0.at[s] && Referred(v, n, m, free, s) && Inv(v, n, m, free)
  {
  }

  lemma BareLeaf(v: seq<Block>, n: nat, m: Map, free: nat, ino: nat, sh: Shape, s: Slot)
    requires Inv(v, n, m, free) && Part(m, ino, sh) && !s.Free? && s.ino == ino && Bare(s, sh)
    ensures Leaf(m, free, s)
  {
    forall t | t in m.at ensures HolderOf(free, t) != Holder.Slot(s) {
      if !t.Free? && t.ino == ino { assert InShape(t, sh); }
    }
  }

  lemma TakeFreeing(v: seq<Block>, n: nat, m: Map, free: nat, ino: nat, sh: Shape, v0: seq<Block>, m0: Map,
                    s: Slot, sh': Shape)
    requires Freeing(v, n, m, free, ino, sh, v0, m0) && Drops(sh, sh', s) && s.ino == ino && Bare(s, sh)
    ensures s in m.at && m.at[s] == At(m0, s) < TWO32 && m.at[s] < |m.own|
    ensures Freeing(Pushed(v, n, m.at[s]), n, Move(m, s, Free(free)), free + 1, ino, sh', v0, m0)
  {
    hide Referred, SuperOk, Domain, Pushed, Bare, Bijective, Leaf, HolderOf, Abs, Move;
    FreeingHas(v, n, m, free, ino, sh, v0, m0, s);
    BareLeaf(v, n, m, free, ino, sh, s);
    PushKeeps(v, n, m, free, s);
    var m', w := Move(m, s, Free(free)), Pushed(v, n, m.at[s]);
    InvFits(v, n, m, free);
    InvFits(w, n, m', free + 1);
    KeepsOn(v0, v, w, n, m0, m, m', ino);
    forall t: Slot | !t.Free? && t != s ensures Same(m, m', t) { PushedAt(m, free, s, t); }
    forall c | 0 < c <= n && c < |v| ensures w[c] == v[c] { PushedBelow(v, n, m, free, s, c); }
  }

  /** A push writes no block of inodes. */
  lemma PushedBelow(v: seq<Block>, n: nat, m: Map, free: nat, s: Slot, c: nat)
    requires Inv(v, n, m, free) && s in m.at && !s.Free? && Leaf(m, free, s) && 0 < c <= n && c < |v|
    requires m.at[s] < |m.own| < TWO32
    ensures Pushed(v, n, m.at[s])[c] == v[c]
  {
    hide Referred, SuperOk, Domain, Pushed, HolderOf, Leaf;
    InvFits(v, n, m, free);
    if free > 0 { HeadIs(v, n, m, free); }
    FreeOut(v, n, m, free);
    MoveBijective(m, s, Free(free));
    AbsDistinct(n, m, s, s);
    if free > 0 { AbsDistinct(n, m, HeadSlot(free), HeadSlot(free)); }
    PushedOther(v, n, m, Move(m, s, Free(free)), free, s, c, 0);
  }

  lemma SingleRefs(v: seq<Block>, n: nat, m: Map, free: nat, ino: nat, sh: Shape, v0: seq<Block>, m0: Map, free0: nat,
                   ib: Block, to: nat)
    requires Freeing(v, n, m, free, ino, sh, v0, m0) && sh.single && Inv(v0, n, m0, free0)
    requires Image(v0, InodeBlock(ino), ib) && to == Abs(n, ib[InodeWord(ino, 13)])
    ensures to < |v| && ib[InodeWord(ino, 13)] == At(m0, Single(ino))
    ensures forall k :: DIRECT <= k < TWO_LEVELS && sh.lo <= k < sh.hi ==> v[to][k - DIRECT] == At(m0, Data(ino, k))
  {
    hide SuperOk, Domain, Abs;
    var s := Single(ino);
    FreeingHas(v, n, m, free, ino, sh, v0, m0, s);
    assert Referred(v0, n, m0, free0, s);
    InvFits(v, n, m, free);
    AbsDistinct(n, m, s, s);
    forall k | DIRECT <= k < TWO_LEVELS && sh.lo <= k < sh.hi ensures v[to][k - DIRECT] == At(m0, Data(ino, k)) {
      FreeingHas(v, n, m, free, ino, sh, v0, m0, Data(ino, k));
    }
  }

  lemma DoubleRefs(v: seq<Block>, n: nat, m: Map, free: nat, ino: nat, sh: Shape, v0: seq<Block>, m0: Map, free0: nat,
                   ib: Block, to: nat)
    requires Freeing(v, n, m, free, ino, sh, v0, m0) && sh.double && Inv(v0, n, m0, free0) && sh.to <= E
    requires Image(v0, InodeBlock(ino), ib) && to == Abs(n, ib[InodeWord(ino, 14)])
    ensures to < |v| && ib[InodeWord(ino, 14)] == At(m0, Double(ino))
    ensures forall j :: sh.from <= j < sh.to ==> v[to][j] == At(m0, Second(ino, j))
  {
    hide SuperOk, Domain, Abs;
    var s := Double(ino);
    FreeingHas(v, n, m, free, ino, sh, v0, m0, s);
    assert Referred(v0, n, m0, free0, s);
    InvFits(v, n, m, free);
    AbsDistinct(n, m, s, s);
    forall j | sh.from <= j < sh.to ensures v[to][j] == At(m0, Second(ino, j)) {
      FreeingHas(v, n, m, free, ino, sh, v0, m0, Second(ino, j));
    }
  }

  lemma SecondRefs(v: seq<Block>, n: nat, m: Map, free: nat, ino: nat, sh: Shape, v0: seq<Block>, m0: Map, j: nat,
          to: nat)
    requires Freeing(v, n, m, free, ino, sh, v0, m0) && sh.from <= j < sh.to && to == Abs(n, At(m0, Second(ino, j)))
    ensures to < |v|
    ensures forall k :: Begin(j) <= k < Begin(j + 1) && sh.lo <= k < sh.hi ==>
      v[to][k - Begin(j)] == At(m0, Data(ino, k))
  {
    hide SuperOk, Domain, Abs;
    var s := Second(ino, j);
    FreeingHas(v, n, m, free, ino, sh, v0, m0, s);
    InvFits(v, n, m, free);
    AbsDistinct(n, m, s, s);
    forall k | Begin(j) <= k < Begin(j + 1) && sh.lo <= k < sh.hi ensures v[to][k - Begin(j)] == At(m0, Data(ino, k)) {
      FreeingHas(v, n, m, free, ino, sh, v0, m0, Data(ino, k));
      assert (k - TWO_LEVELS) / E == j && (k - TWO_LEVELS) % E == k - Begin(j);
    }
  }

  // ---- the files ----

  /** After a file was emptied: the others are where and what they were. */
  ghost predicate Emptied(v0: seq<Block>, v: seq<Block>, n: nat, m0: Map, m: Map, ino: nat) {
    && Keeps(v0, v, n, m0, m, ino) && Rest(m0, m, ino)
    && forall i :: 0 <= i < n * INODES && i != ino ==> Size(v, i) == Size(v0, i)
  }

  lemma FreeingBegins(d: seq<Block>, n: nat, m: Map, free: nat, ino: nat, ib: Block)
    requires Good(d, n, m, free) && ino < n * INODES && Image(d, InodeBlock(ino), ib)
    ensures Freeing(d, n, m, free, ino, Whole(ib[InodeWord(ino, 0)]), d, m) && Inv(d, n, m, free)
  {
    hide Referred, SuperOk, Domain, Abs;
    assert FileOk(d, m, ino);
    InvFits(d, n, m, free);
    forall s | s in m.at ensures Abs(n, m.at[s]) < |d| { AbsDistinct(n, m, s, s); }
  }

  lemma FreeingEnds(v: seq<Block>, n: nat, m: Map, free: nat, ino: nat, sh: Shape, v0: seq<Block>, m0: Map,
                    free0: nat, ib: Block)
    requires Good(v0, n, m0, free0) && Freeing(v, n, m, free, ino, sh, v0, m0) && ino < n * INODES
    requires sh.lo >= sh.hi && !sh.single && !sh.double && sh.from >= sh.to && Image(v0, InodeBlock(ino), ib)
    ensures var w := v[InodeBlock(ino) := ib[InodeWord(ino, 0) := 0]];
      Good(w, n, m, free) && Emptied(v0, w, n, m0, m, ino) && Size(w, ino) == 0
  {
    hide Inv;
    var w := v[InodeBlock(ino) := ib[InodeWord(ino, 0) := 0]];
    FreeingSizes(v, n, m, free, ino, sh, v0, m0);
    SizeWord(v, n, m, free, ino, ib, 0);
    OthersOk(v0, w, n, m0, m, ino);
    KeepsOn(v0, v, w, n, m0, m, m, ino);
  }

  lemma FreeingSizes(v: seq<Block>, n: nat, m: Map, free: nat, ino: nat, sh: Shape, v0: seq<Block>, m0: Map)
    requires Freeing(v, n, m, free, ino, sh, v0, m0) && ino < n * INODES
    ensures forall i :: 0 <= i < n * INODES ==> Size(v, i) == Size(v0, i)
    ensures InodeBlock(ino) < |v| && v[InodeBlock(ino)] == v0[InodeBlock(ino)]
  {
    hide Referred, SuperOk, Domain;
  }

  ghost function BlockAt(v: seq<Block>, n: nat, m: Map, s: Slot): Block {
    var b := Abs(n, At(m, s));
    if b < |v| then v[b] else Nulls(E)
  }

  ghost function Contents(v: seq<Block>, n: nat, m: Map, ino: nat, k: nat): (c: seq<Block>)
    ensures |c| == k && forall off :: 0 <= off < k ==> c[off] == BlockAt(v, n, m, Data(ino, off))
  {
    if k == 0 then [] else Contents(v, n, m, ino, k - 1) + [BlockAt(v, n, m, Data(ino, k - 1))]
  }

  lemma DataIn(v: seq<Block>, n: nat, m: Map, free: nat, ino: nat, offset: nat)
    requires Good(v, n, m, free) && ino < n * INODES && offset < Size(v, ino)
    ensures Data(ino, offset) in m.at && n < Abs(n, At(m, Data(ino, offset))) < |v|
  {
    hide Referred, SuperOk, Domain;
    assert FileOk(v, m, ino);
    InvFits(v, n, m, free);
    AbsDistinct(n, m, Data(ino, offset), Data(ino, offset));
  }

  lemma InodesThere(v: seq<Block>, n: nat, m: Map, free: nat, ino: nat)
    requires Good(v, n, m, free)
    ensures Word0(v, 0, 0) == n < |v| && (ino < n * INODES ==> InodeBlock(ino) < |v| && Size(v, ino) <= MAX_BLOCKS)
  {
    hide Referred, Domain, Bijective;
    if ino < n * INODES { assert FileOk(v, m, ino); }
  }

  lemma ImageSize(v: seq<Block>, ino: nat, ib: Block)
    requires Image(v, InodeBlock(ino), ib)
    ensures ib[InodeWord(ino, 0)] == Size(v, ino)
  {
  }

  lemma NoSlots()
    ensures Slots(0) == 0
  {
  }

  /** A block number that stands for none is that of the last block of inodes. */
  lemma AbsNone(n: nat)
    requires n < TWO32
    ensures Abs(n, NONE) == n
  {
  }

  lemma GoodInv(v: seq<Block>, n: nat, m: Map, free: nat)
    requires Good(v, n, m, free)
    ensures Inv(v, n, m, free)
  {
  }

  /** Nothing is found through a data block. */
  lemma DataWritten(v: seq<Block>, n: nat, m: Map, free: nat, s: Slot, blk: Block)
    requires Good(v, n, m, free) && s.Data? && s in m.at
    ensures var to := Abs(n, At(m, s));
      && n < to < |v| && Good(v[to := blk], n, m, free)
      && (forall i :: 0 <= i < n * INODES ==> Size(v[to := blk], i) == Size(v, i))
      && forall t :: t in m.at && t.Data? ==> BlockAt(v[to := blk], n, m, t) == if t == s then blk else BlockAt(v, n, m, t)
  {
    hide Abs, Domain, Bijective, Referred, SuperOk, HolderOf, HolderWord, HolderBlock, Part;
    var to := Abs(n, At(m, s));
    InvFits(v, n, m, free);
    AbsDistinct(n, m, s, s);
    var w := v[to := blk];
    DataSuper(v, n, m, free, s, blk, to);
    forall t | t in m.at ensures Referred(w, n, m, free, t) { DataRef(v, n, m, free, s, blk, to, t); }
    forall i | 0 <= i < n * INODES ensures FileOk(w, m, i) { assert FileOk(v, m, i); }
    forall t | t in m.at && t.Data? ensures BlockAt(w, n, m, t) == if t == s then blk else BlockAt(v, n, m, t) {
      AbsDistinct(n, m, s, t);
      AbsDistinct(n, m, t, t);
    }
  }

  lemma DataSuper(v: seq<Block>, n: nat, m: Map, free: nat, s: Slot, blk: Block, to: nat)
    requires n < to < |v| && to == Abs(n, At(m, s)) && Inv(v, n, m, free) && s.Data? && s in m.at
    ensures SuperOk(v[to := blk], n, m, free)
  {
    hide Abs, Bijective, Referred;
    InvFits(v, n, m, free);
    AbsDistinct(n, m, s, s);
    if free > 0 {
      assert Free(0) in m.at;
      AbsDistinct(n, m, Free(0), s);
    }
  }

  lemma DataRef(v: seq<Block>, n: nat, m: Map, free: nat, s: Slot, blk: Block, to: nat, t: Slot)
    requires n < to < |v| && to == Abs(n, At(m, s)) && Inv(v, n, m, free) && s.Data? && s in m.at && t in m.at
    ensures Referred(v[to := blk], n, m, free, t)
  {
    hide Abs, Bijective, SuperOk, HolderWord;
    InvFits(v, n, m, free);
    AbsDistinct(n, m, s, s);
    assert Referred(v, n, m, free, t) && Held(m, free, t);
    var h := HolderOf(free, t);
    if h.Slot? { AbsDistinct(n, m, h.slot, s); }
    InodeHolder(free, t, n);
  }

  /** The files, but for one, hold what they held. */
  lemma SameFiles(v0: seq<Block>, v: seq<Block>, n: nat, m0: Map, free0: nat, m: Map, ino: nat, but: int)
    requires Good(v0, n, m0, free0) && Keeps(v0, v, n, m0, m, but) && (but == ino || but == -1)
    requires forall i :: 0 <= i < n * INODES && i != ino ==> Size(v, i) == Size(v0, i)
    ensures forall i :: 0 <= i < n * INODES && i != ino ==>
      Contents(v, n, m, i, Size(v, i)) == Contents(v0, n, m0, i, Size(v0, i))
    ensures but == -1 && ino < n * INODES ==>
      forall k :: 0 <= k < Size(v0, ino) ==> BlockAt(v, n, m, Data(ino, k)) == BlockAt(v0, n, m0, Data(ino, k))
  {
    hide Inv, Abs;
    forall i, k | 0 <= i < n * INODES && i != but && 0 <= k < Size(v0, i)
      ensures BlockAt(v, n, m, Data(i, k)) == BlockAt(v0, n, m0, Data(i, k))
    {
      assert FileOk(v0, m0, i);
      assert Data(i, k) in m0.at;
      assert SameBlock(v0, v, n, m0, m, Data(i, k));
    }
    forall i | 0 <= i < n * INODES && i != ino
      ensures Contents(v, n, m, i, Size(v, i)) == Contents(v0, n, m0, i, Size(v0, i))
    {
      assert forall k :: 0 <= k < Size(v0, i) ==> BlockAt(v, n, m, Data(i, k)) == BlockAt(v0, n, m0, Data(i, k));
    }
  }

  /** The files after a block of one was written */
  lemma WrittenFiles(v: seq<Block>, n: nat, m: Map, free: nat, ino: nat, offset: nat, blk: Block)
    requires Good(v, n, m, free) && ino < n * INODES && offset < Size(v, ino) && Data(ino, offset) in m.at
    ensures var to := Abs(n, At(m, Data(ino, offset)));
      && n < to < |v| && Good(v[to := blk], n, m, free) && Word0(v[to := blk], 0, 0) == n
      && (forall i :: 0 <= i < n * INODES ==> Size(v[to := blk], i) == Size(v, i))
      && Contents(v[to := blk], n, m, ino, Size(v, ino)) == Contents(v, n, m, ino, Size(v, ino))[offset := blk]
      && forall i :: 0 <= i < n * INODES && i != ino ==>
           Contents(v[to := blk], n, m, i, Size(v, i)) == Contents(v, n, m, i, Size(v, i))
  {
    hide Inv, Abs, BlockAt, Size;
    DataWritten(v, n, m, free, Data(ino, offset), blk);
    var w := v[Abs(n, At(m, Data(ino, offset))) := blk];
    InodesThere(w, n, m, free, ino);
    forall i, k | 0 <= i < n * INODES && 0 <= k < Size(v, i) ensures Data(i, k) in m.at {
      assert FileOk(v, m, i);
    }
  }

  /** The last entry below i of the single indirect block stands for none. */
  predicate NoneAt(d: seq<Block>, n: nat, ino: nat, ib: Block, i: nat) {
    var to := Abs(n, ib[InodeWord(ino, 13)]);
    n < to < |d| && DIRECT < i <= TWO_LEVELS && d[to][i - 1 - DIRECT] == NONE
  }

  // ---- past the double indirect block ----

  /** The first offset of plane j */
  function Plane(j: nat): nat {
    MAX_BLOCKS + j * (E * E)
  }

  lemma PlaneOf(i: nat, j: nat)
    requires MAX_BLOCKS <= i < MAX_BLOCKS + E * E * E && j == (i - MAX_BLOCKS) / (E * E)
    ensures j < E && Plane(j) <= i < Plane(j) + E * E && (j == 0 <==> i < Plane(1))
    ensures MAX_BLOCKS == Plane(0) < Plane(1) <= Plane(j) + E * E
  {
  }

  lemma RowOf(x: nat, k: nat)
    requires x < E * E && k == x / E
    ensures k < E && k * E <= x < k * E + E <= E * E
  {
  }

  /** The first entry of the file's double indirect block is not the block it was for. */
  ghost predicate Severed(d: seq<Block>, n: nat, m: Map, ino: nat) {
    && Double(ino) in m.at && Second(ino, 0) in m.at && n < Abs(n, m.at[Double(ino)]) < |d|
    && Word0(d, Abs(n, m.at[Double(ino)]), 0) != m.at[Second(ino, 0)]
  }

  /** What is left after a pop: the superblock points to the rest of the stack. */
  lemma PoppedRest(d: seq<Block>, v: seq<Block>, n: nat, m: Map, free: nat, open: set<nat>)
    requires Inv(v, n, m, free) && free > 1 && Behind(d, v, open) && Apart(n, m, open)
    ensures HeadSlot(free - 1) in m.at && Word0(Popped(d, n), 0, 1) == m.at[HeadSlot(free - 1)]
    ensures Word0(Popped(d, n), 0, 2) == (free - 2) % G
  {
    hide Domain, Bijective, Referred, SuperOk;
    InvFits(v, n, m, free);
    PopAgrees(d, v, n, m, free, open);
    HeadIs(v, n, m, free);
    HeadArith(free);
    FreeIn(v, n, m, free, (free - 1) / G * G);
    AbsDistinct(n, m, HeadSlot(free), HeadSlot(free));
    HeadArith(free - 1);
    FreeIn(v, n, m, free, (free - 2) / G * G);
    PoppedWords(v, n, m, free);
  }

  lemma HeadLess(free: nat)
    requires free > 1
    ensures (free - 1) % G == 0 ==> (free - 2) / G * G + G == free - 1 && (free - 2) % G == G - 1
    ensures (free - 1) % G != 0 ==> (free - 2) / G * G == (free - 1) / G * G && (free - 2) % G == (free - 1) % G - 1
    ensures (free - 2) / G * G + (free - 2) % G == free - 2
  {
  }

  lemma PoppedWords(v: seq<Block>, n: nat, m: Map, free: nat)
    requires Inv(v, n, m, free) && free > 1
    ensures Word0(Popped(v, n), 0, 1) == At(m, HeadSlot(free - 1)) && Word0(Popped(v, n), 0, 2) == (free - 2) % G
  {
    hide Inv, Popped, Bijective, SuperOk;
    HeadIs(v, n, m, free);
    PopSuper(v, n, m, free);
    HeadLess(free);
    FreeIn(v, n, m, free, (free - 2) / G * G);
  }

  /** The second block popped is a free one, or none. */
  lemma SecondPop(d: seq<Block>, v: seq<Block>, n: nat, m: Map, free: nat, open: set<nat>)
    requires Inv(v, n, m, free) && Behind(d, v, open) && Apart(n, m, open)
    ensures PopResult(Popped(d, n), n) == if free >= 2 then At(m, Free(free - 2)) else NONE
  {
    hide Inv, Bijective, Popped;
    InvFits(v, n, m, free);
    InvSuper(v, n, m, free);
    if free == 0 {
      NothingPopped(d, n);
    } else if free == 1 {
      PopAgrees(d, v, n, m, free, open);
      HeadIs(v, n, m, free);
      PopSuper(v, n, m, free);
    } else {
      PoppedRest(d, v, n, m, free, open);
      HeadLess(free);
      FreeIn(v, n, m, free, free - 2);
      FreeIn(v, n, m, free, (free - 2) / G * G);
      var head := HeadSlot(free - 1);
      AbsDistinct(n, m, head, head);
      PoppedElsewhere(d, n, Abs(n, m.at[head]), 1 + (free - 2) % G);
    }
  }

  lemma NothingPopped(d: seq<Block>, n: nat)
    requires NoHead(d, n)
    ensures Popped(d, n) == d && PopResult(d, n) == NONE
  {
  }

  lemma SeveredBy(d: seq<Block>, v: seq<Block>, w: seq<Block>, n: nat, m: Map, free: nat, ino: nat, v0: seq<Block>,
                  m0: Map, ib: Block)
    requires Doing(d, v, n, m, free, ino, Whole(MAX_BLOCKS), {InodeBlock(ino)}, v0, m0) && ino < n * INODES
    requires Image(v, InodeBlock(ino), ib) && |w| == |d|
    requires Word0(w, Abs(n, ib[InodeWord(ino, 14)]), 0) == PopResult(Popped(d, n), n)
    ensures Severed(w, n, m, ino)
  {
    hide SuperOk, Keeps, Rest, Popped, PopResult;
    var s, t := Double(ino), Second(ino, 0);
    assert s in m.at && t in m.at && Referred(v, n, m, free, s);
    InvFits(v, n, m, free);
    AbsDistinct(n, m, s, t);
    SecondPop(d, v, n, m, free, {InodeBlock(ino)});
    if free >= 2 { FreeIn(v, n, m, free, free - 2); }
  }

  // ---- counting ----

  function DataSlots(ino: nat, k: nat): (d: set<Slot>)
    ensures forall s :: s in d <==> s.Data? && s.ino == ino && s.off < k
    ensures |d| == k
  {
    if k == 0 then {} else DataSlots(ino, k - 1) + {Data(ino, k - 1)}
  }

  function SecondSlots(ino: nat, k: nat): (d: set<Slot>)
    ensures forall s :: s in d <==> s.Second? && s.ino == ino && s.j < k
    ensures |d| == k
  {
    if k == 0 then {} else SecondSlots(ino, k - 1) + {Second(ino, k - 1)}
  }

  function FreeSlots(k: nat): (d: set<Slot>)
    ensures forall s :: s in d <==> s.Free? && s.p < k
    ensures |d| == k
  {
    if k == 0 then {} else FreeSlots(k - 1) + {Free(k - 1)}
  }

  /** The slots of a file of nb blocks */
  function FileSlots(ino: nat, nb: nat): set<Slot> {
    DataSlots(ino, nb) + (if nb > DIRECT then {Single(ino)} else {})
    + (if nb > TWO_LEVELS then {Double(ino)} else {}) + SecondSlots(ino, Seconds(nb))
  }

  lemma FileSlotsAre(ino: nat, nb: nat)
    ensures forall s :: s in FileSlots(ino, nb) <==> !s.Free? && s.ino == ino && InShape(s, Whole(nb))
    ensures |FileSlots(ino, nb)| == Slots(nb)
  {
    var a, b := DataSlots(ino, nb), if nb > DIRECT then {Single(ino)} else {};
    var c := if nb > TWO_LEVELS then {Double(ino)} else {};
    Disjoint(a, b);
    Disjoint(a + b, c);
    Disjoint(a + b + c, SecondSlots(ino, Seconds(nb)));
  }

  lemma Disjoint(a: set<Slot>, b: set<Slot>)
    requires a !! b
    ensures |a + b| == |a| + |b|
  {
  }

  /** The blocks of the first k files */
  function FilesSlots(v: seq<Block>, k: nat): nat {
    if k == 0 then 0 else FilesSlots(v, k - 1) + Slots(Size(v, k - 1))
  }

  function InFiles(v: seq<Block>, k: nat): set<Slot> {
    if k == 0 then {} else InFiles(v, k - 1) + FileSlots(k - 1, Size(v, k - 1))
  }

  lemma {:induction false} InFilesAre(v: seq<Block>, k: nat)
    ensures forall s :: s in InFiles(v, k) <==> !s.Free? && s.ino < k && InShape(s, Whole(Size(v, s.ino)))
    ensures |InFiles(v, k)| == FilesSlots(v, k)
  {
    hide FileSlots, InShape, Whole, Slots, Size;
    if k > 0 {
      InFilesAre(v, k - 1);
      FileSlotsAre(k - 1, Size(v, k - 1));
      Disjoint(InFiles(v, k - 1), FileSlots(k - 1, Size(v, k - 1)));
    }
  }

  /** As many slots have a block as there are blocks. */
  lemma {:induction false} AsMany(own: seq<Slot>, d: set<Slot>)
    requires forall i, j :: 0 <= i < j < |own| ==> own[i] != own[j]
    requires forall s :: s in d <==> s in own
    ensures |d| == |own|
    decreases |own|
  {
    if own == [] {
      assert d == {};
    } else {
      var k := |own| - 1;
      forall s ensures s in d - {own[k]} <==> s in own[..k] {
        if s in own && s != own[k] {
          var i :| 0 <= i < |own| && own[i] == s;
          assert own[..k][i] == s;
        }
      }
      AsMany(own[..k], d - {own[k]});
    }
  }

  /** On a disk in order, every data block is free or one of those its files need. */
  lemma Counted(v: seq<Block>, n: nat, m: Map, free: nat)
    requires Good(v, n, m, free)
    ensures |v| == 1 + n + free + FilesSlots(v, n * INODES)
  {
    hide Referred, SuperOk, Held, InFiles, FreeSlots, Size;
    InFilesAre(v, n * INODES);
    var d, f := InFiles(v, n * INODES), FreeSlots(free);
    InvFits(v, n, m, free);
    forall s ensures s in d + f <==> s in m.at {
      SlotCounted(v, n, m, free, s);
    }
    assert m.at.Keys == d + f;
    Disjoint(d, f);
    forall s ensures s in m.at.Keys <==> s in m.own {
      if s in m.at { assert m.own[m.at[s]] == s; }
    }
    AsMany(m.own, m.at.Keys);
  }

  lemma SlotCounted(v: seq<Block>, n: nat, m: Map, free: nat, s: Slot)
    requires Good(v, n, m, free)
    ensures s in m.at <==> if s.Free? then s.p < free else s.ino < n * INODES && InShape(s, Whole(Size(v, s.ino)))
  {
    hide Referred, SuperOk, Held;
    if !s.Free? && s.ino < n * INODES { assert FileOk(v, m, s.ino); }
  }

  lemma {:induction false} OneDiffers(v: seq<Block>, w: seq<Block>, ino: nat, k: nat)
    requires forall i :: 0 <= i < k && i != ino ==> Size(w, i) == Size(v, i)
    ensures FilesSlots(w, k) - FilesSlots(v, k) == if ino < k then Slots(Size(w, ino)) - Slots(Size(v, ino)) else 0
  {
    hide Slots, Size;
    if k > 0 { OneDiffers(v, w, ino, k - 1); }
  }

  /** File ino has grown to have a block at offset, the other sizes are the same, and the disk is in order. */
  ghost predicate InOrder(v: seq<Block>, w: seq<Block>, n: nat, ino: nat, offset: nat) {
    && |w| == |v| && Size(w, ino) == Greatest(Size(v, ino), offset + 1)
    && (forall i :: 0 <= i < n * INODES && i != ino ==> Size(w, i) == Size(v, i))
    && exists m: Map, free: nat :: Good(w, n, m, free)
  }

  lemma IsInOrder(v: seq<Block>, w: seq<Block>, n: nat, m: Map, free: nat, ino: nat, offset: nat)
    requires Good(w, n, m, free) && |w| == |v| && Size(w, ino) == Greatest(Size(v, ino), offset + 1)
    requires forall i :: 0 <= i < n * INODES && i != ino ==> Size(w, i) == Size(v, i)
    ensures InOrder(v, w, n, ino, offset)
  {
  }

  lemma GrownInOrder(v: seq<Block>, w: seq<Block>, n: nat, m0: Map, m: Map, free: nat, ino: nat, offset: nat)
    requires Good(w, n, m, free) && |w| == |v| && Grown(v, w, n, m0, m, ino)
    requires Size(w, ino) == Greatest(Size(v, ino), offset + 1)
    ensures InOrder(v, w, n, ino, offset)
  {
  }

  lemma NotInOrder(v: seq<Block>, n: nat, m: Map, free: nat, ino: nat, offset: nat)
    requires Good(v, n, m, free) && ino < n * INODES
    requires Size(v, ino) <= offset && (free + Slots(Size(v, ino)) < Slots(offset + 1) || offset >= MAX_BLOCKS)
    ensures forall w :: !InOrder(v, w, n, ino, offset)
  {
    forall w ensures !InOrder(v, w, n, ino, offset) {
      if InOrder(v, w, n, ino, offset) {
        OrderTakes(v, w, n, m, free, ino, offset);
        OrderFits(v, w, n, ino, offset);
      }
    }
  }

  lemma OrderFits(v: seq<Block>, w: seq<Block>, n: nat, ino: nat, offset: nat)
    requires InOrder(v, w, n, ino, offset) && ino < n * INODES
    ensures offset < MAX_BLOCKS
  {
    hide Inv;
    var m, free :| Good(w, n, m, free);
    assert FileOk(w, m, ino);
  }

  /** That takes as many free blocks as the file has more. */
  lemma OrderTakes(v: seq<Block>, w: seq<Block>, n: nat, m: Map, free: nat, ino: nat, offset: nat)
    requires Good(v, n, m, free) && InOrder(v, w, n, ino, offset) && ino < n * INODES
    ensures free + Slots(Size(v, ino)) >= Slots(Size(w, ino))
  {
    hide Good, Slots, Size;
    var m': Map, free': nat :| Good(w, n, m', free');
    Counted(v, n, m, free);
    Counted(w, n, m', free');
    OneDiffers(v, w, ino, n * INODES);
  }

  /** The image of block b */
  predicate Image(v: seq<Block>, b: nat, img: Block) {
    b < |v| && v[b] == img
  }

  lemma AddsDirect(ino: nat, i: nat)
    requires i < DIRECT
    ensures Adds(Whole(i), Whole(i + 1), Data(ino, i))
  {
  }

  lemma NoneFound(d: seq<Block>, n: nat)
    requires NoHead(d, n)
    ensures PopResult(d, n) == NONE && Popped(d, n) == d
  {
  }

  lemma NothingLeft(d: seq<Block>, v: seq<Block>, n: nat, m: Map, ino: nat, sh: Shape, open: set<nat>,
                    v0: seq<Block>, m0: Map)
    requires Doing(d, v, n, m, 0, ino, sh, open, v0, m0)
    ensures NoHead(d, n)
  {
  }

  /** One word of one block has changed, besides the superblock. */
  ghost predicate Filed(v: seq<Block>, w: seq<Block>, b: nat, u: nat, x: Word) {
    && |w| == |v| && 0 < b < |v| && u < E && w[b] == v[b][u := x]
    && forall c :: 0 < c < |v| && c != b ==> w[c] == v[c]
  }

  lemma GiveFiled(d: seq<Block>, v: seq<Block>, n: nat, m: Map, free: nat, ino: nat, sh: Shape, open: set<nat>,
                  v0: seq<Block>, m0: Map, s: Slot, sh': Shape)
    requires Doing(d, v, n, m, free, ino, sh, open, v0, m0) && free > 0
    requires Adds(sh, sh', s) && s.ino == ino && InFile(s, n) && Open(n, m, free, s, sh, open)
    ensures Filed(v, Given(v, n, m, free, s), HolderBlock(n, m, HolderOf(free, s)), HolderWord(s), PopResult(d, n))
  {
    hide Referred, SuperOk, Domain, Popped, PopResult, Given;
    InvFits(v, n, m, free);
    FilePlace(n, m, free, s);
    GivenBehind(d, v, n, m, free, open, s);
  }
}