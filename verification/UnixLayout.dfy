/**
 The layout of the inode store: which blocks of its disk belong to the free list, and which to the files,
 and where the only reference to each of them is.
 */
module UnixLayout {
  import opened Radix

  const E: nat := 256        // entries of an indirect block
  const G: nat := 255        // a node of the free list, with its entries
  const INODES: nat := 16    // inodes of a block
  const DIRECT: nat := 12
  const TWO_LEVELS: nat := DIRECT + E
  const MAX_BLOCKS: nat := DIRECT + E + E * E
  const NONE: Word := 0xFFFF_FFFF

  function Nulls(n: nat): (b: seq<Word>)
    ensures |b| == n && forall i :: 0 <= i < n ==> b[i] == 0
  {
    seq(n, i => 0)
  }

  type Block = b: seq<Word> | |b| == E witness Nulls(E)

  /** What a data block is for. The free blocks are a stack: blocks 0, G, 2G and so on of it are nodes of
      the free list, from its end, and each is followed by the blocks recorded in it. */
  datatype Slot =
    | Data(ino: nat, off: nat)
    | Single(ino: nat)
    | Double(ino: nat)
    | Second(ino: nat, j: nat)
    | Free(p: nat)

  /** own[b] is what data block b is for, and at is its inverse. */
  datatype Map = Map(own: seq<Slot>, at: map<Slot, nat>)

  function At(m: Map, s: Slot): nat {
    if s in m.at then m.at[s] else 0
  }

  ghost predicate Bijective(m: Map) {
    && (forall b :: 0 <= b < |m.own| ==> m.own[b] in m.at && m.at[m.own[b]] == b)
    && forall s :: s in m.at ==> m.at[s] < |m.own| && m.own[m.at[s]] == s
  }

  /** The block of s is now for t. */
  function Move(m: Map, s: Slot, t: Slot): Map
    requires s in m.at && m.at[s] < |m.own|
  {
    Map(m.own[m.at[s] := t], (m.at - {s})[t := m.at[s]])
  }

  lemma MoveBijective(m: Map, s: Slot, t: Slot)
    requires Bijective(m) && s in m.at && t !in m.at
    ensures Bijective(Move(m, s, t)) && |Move(m, s, t).own| == |m.own|
    ensures forall u :: u in Move(m, s, t).at <==> u == t || (u in m.at && u != s)
  {
  }

  /** Where data block b is on a disk with n blocks of inodes */
  function Abs(n: nat, b: nat): nat {
    (b + 1 + n) % TWO32
  }

  // ---- where the reference to a block is ----

  function InodeBlock(ino: nat): nat {
    1 + ino / INODES
  }

  function InodeWord(ino: nat, w: nat): nat {
    ino % INODES * 16 + w
  }

  /** The slot whose block holds the reference; Data(ino, 0) stands for the inode, Free(0) for the superblock. */
  datatype Holder = Super | Inode(ino: nat) | Slot(slot: Slot)

  function HolderOf(free: nat, s: Slot): Holder {
    match s
    case Data(ino, off) =>
      if off < DIRECT then Holder.Inode(ino)
      else if off < TWO_LEVELS then Holder.Slot(Single(ino))
      else Holder.Slot(Second(ino, (off - TWO_LEVELS) / E))
    case Single(ino) => Holder.Inode(ino)
    case Double(ino) => Holder.Inode(ino)
    case Second(ino, j) => Holder.Slot(Double(ino))
    case Free(p) =>
      if p % G != 0 then Holder.Slot(Free(p - p % G))
      else if p + G < free then Holder.Slot(Free(p + G))
      else Holder.Super
  }

  function HolderWord(s: Slot): nat {
    match s
    case Data(ino, off) =>
      if off < DIRECT then InodeWord(ino, 1 + off)
      else if off < TWO_LEVELS then off - DIRECT
      else (off - TWO_LEVELS) % E
    case Single(ino) => InodeWord(ino, 13)
    case Double(ino) => InodeWord(ino, 14)
    case Second(ino, j) => j
    case Free(p) => 1 + p % G
  }

  function HolderBlock(n: nat, m: Map, h: Holder): nat {
    match h
    case Super => 0
    case Inode(ino) => InodeBlock(ino)
    case Slot(s) => Abs(n, At(m, s))
  }

  predicate InFile(s: Slot, n: nat) {
    match s
    case Data(ino, off) => ino < n * INODES && off < MAX_BLOCKS
    case Single(ino) => ino < n * INODES
    case Double(ino) => ino < n * INODES
    case Second(ino, j) => ino < n * INODES && j < E
    case Free(_) => false
  }

  // ---- the invariant ----

  predicate Fits(v: seq<Block>, n: nat, m: Map) {
    |v| == 1 + n + |m.own| < TWO32
  }

  ghost predicate Held(m: Map, free: nat, s: Slot) {
    var h := HolderOf(free, s);
    h.Slot? ==> h.slot in m.at
  }

  function Word0(v: seq<Block>, b: nat, w: nat): Word {
    if b < |v| && w < E then v[b][w] else 0
  }

  ghost predicate Referred(v: seq<Block>, n: nat, m: Map, free: nat, s: Slot) {
    Word0(v, HolderBlock(n, m, HolderOf(free, s)), HolderWord(s)) == At(m, s)
  }

  ghost predicate Domain(n: nat, m: Map, free: nat) {
    && (forall p: nat :: Free(p) in m.at <==> p < free)
    && forall s :: s in m.at ==> (s.Free? || InFile(s, n)) && Held(m, free, s)
  }

  ghost predicate SuperOk(v: seq<Block>, n: nat, m: Map, free: nat) {
    && Word0(v, 0, 0) == n
    && Word0(v, 0, 2) == (free + G - 1) % G
    && (if free == 0 then Word0(v, 0, 1) == NONE else Word0(v, Abs(n, At(m, Free(0))), 1) == NONE)
  }

  ghost predicate Inv(v: seq<Block>, n: nat, m: Map, free: nat) {
    && Fits(v, n, m) && Bijective(m) && Domain(n, m, free) && SuperOk(v, n, m, free)
    && forall s :: s in m.at ==> Referred(v, n, m, free, s)
  }

  /** What is in the data blocks of the files stays there. */
  ghost predicate SameData(v: seq<Block>, w: seq<Block>, n: nat, m: Map, m': Map) {
    forall ino, off :: Data(ino, off) in m.at && Data(ino, off) in m'.at ==> SameBlock(v, w, n, m, m', Data(ino, off))
  }

  ghost predicate SameBlock(v: seq<Block>, w: seq<Block>, n: nat, m: Map, m': Map, s: Slot) {
    var b := Abs(n, At(m, s));
    At(m', s) == At(m, s) && b < |v| && b < |w| && w[b] == v[b]
  }

  // ---- places are distinct ----

  lemma AbsDistinct(n: nat, m: Map, s: Slot, t: Slot)
    requires Bijective(m) && 1 + n + |m.own| < TWO32 && s in m.at && t in m.at
    ensures n < Abs(n, m.at[s]) < 1 + n + |m.own| && (s != t ==> Abs(n, m.at[s]) != Abs(n, m.at[t]))
  {
  }

  /** No two references of files are at one place. */
  lemma PlacesDistinct(n: nat, m: Map, free: nat, s: Slot, t: Slot)
    requires Bijective(m) && 1 + n + |m.own| < TWO32 && s != t && InFile(s, n) && InFile(t, n)
    requires Held(m, free, s) && Held(m, free, t)
    ensures HolderBlock(n, m, HolderOf(free, s)) != HolderBlock(n, m, HolderOf(free, t)) || HolderWord(s) != HolderWord(t)
  {
    var h, k := HolderOf(free, s), HolderOf(free, t);
    if h.Slot? && k.Slot? { AbsDistinct(n, m, h.slot, k.slot); }
    if h.Slot? { AbsDistinct(n, m, h.slot, h.slot); }
    if k.Slot? { AbsDistinct(n, m, k.slot, k.slot); }
  }

  // ---- the stack of free blocks ----

  function Top(free: nat): nat
    requires free > 0
  {
    free - 1
  }

  /** The node at the head of the free list */
  function HeadSlot(free: nat): Slot
    requires free > 0
  {
    Free((free - 1) / G * G)
  }

  function Written(v: seq<Block>, b: nat, w: nat, x: Word): (r: seq<Block>)
    ensures |r| == |v|
  {
    if b < |v| && w < E then v[b := v[b][w := x]] else v
  }

  lemma WrittenWord(v: seq<Block>, b: nat, w: nat, x: Word, c: nat, u: nat)
    requires b < |v| && w < E
    ensures Word0(Written(v, b, w, x), c, u) == if c == b && u == w then x else Word0(v, c, u)
  {
  }

  /** No block can be found: the list is empty, or its head is nowhere. */
  predicate NoHead(v: seq<Block>, n: nat) {
    Word0(v, 0, 1) == NONE || Abs(n, Word0(v, 0, 1)) >= |v|
  }

  /** unixdisk_popfree: the block it finds */
  function PopResult(v: seq<Block>, n: nat): Word {
    if NoHead(v, n) then NONE
    else if Word0(v, 0, 2) > 0 then Word0(v, Abs(n, Word0(v, 0, 1)), 1 + Word0(v, 0, 2))
    else Word0(v, 0, 1)
  }

  /** unixdisk_popfree: the disk it leaves */
  function Popped(v: seq<Block>, n: nat): (r: seq<Block>)
    ensures |r| == |v|
  {
    if NoHead(v, n) then v
    else if Word0(v, 0, 2) > 0 then Written(v, 0, 2, Word0(v, 0, 2) - 1)
    else Written(Written(v, 0, 1, Word0(v, Abs(n, Word0(v, 0, 1)), 1)), 0, 2, G - 1)
  }

  lemma HeadArith(free: nat)
    requires free > 0
    ensures var p := (free - 1) / G * G;
      p % G == 0 && p < free <= p + G && p + (free - 1) % G == free - 1
    ensures (free + G - 1) % G == (free - 1) % G
  {
  }

  lemma FreeIn(v: seq<Block>, n: nat, m: Map, free: nat, p: nat)
    requires Inv(v, n, m, free) && p < free
    ensures Free(p) in m.at && Referred(v, n, m, free, Free(p)) && m.at[Free(p)] < |m.own|
    ensures |v| > 0 && Word0(v, 0, 2) == (free + G - 1) % G
  {
  }

  /** The superblock points at the head of the free list. */
  lemma HeadIs(v: seq<Block>, n: nat, m: Map, free: nat)
    requires Inv(v, n, m, free) && free > 0
    ensures HeadSlot(free) in m.at && Word0(v, 0, 1) == m.at[HeadSlot(free)] != NONE && !NoHead(v, n)
  {
    hide Inv;
    HeadArith(free);
    FreeIn(v, n, m, free, (free - 1) / G * G);
    InvFits(v, n, m, free);
    AbsDistinct(n, m, HeadSlot(free), HeadSlot(free));
  }

  lemma InvFits(v: seq<Block>, n: nat, m: Map, free: nat)
    requires Inv(v, n, m, free)
    ensures Fits(v, n, m) && Bijective(m)
  {
  }

  /** What is popped is the top of the stack. */
  lemma PopIs(v: seq<Block>, n: nat, m: Map, free: nat)
    requires Inv(v, n, m, free) && free > 0
    ensures Free(free - 1) in m.at && PopResult(v, n) == m.at[Free(free - 1)]
  {
    hide Inv;
    HeadArith(free);
    HeadIs(v, n, m, free);
    FreeIn(v, n, m, free, free - 1);
  }

  /** The disk after a block was popped, and its number put where slot s refers to it */
  function Given(v: seq<Block>, n: nat, m: Map, free: nat, s: Slot): seq<Block> {
    Written(Popped(v, n), HolderBlock(n, m, HolderOf(free, s)), HolderWord(s), PopResult(v, n))
  }

  ghost predicate Giving(v: seq<Block>, n: nat, m: Map, m': Map, free: nat, s: Slot) {
    && Inv(v, n, m, free) && free > 0 && InFile(s, n) && s !in m.at && Held(m, free, s)
    && Free(free - 1) in m.at && m' == Move(m, Free(free - 1), s) && Bijective(m') && |m'.own| == |m.own|
    && PopResult(v, n) == m.at[Free(free - 1)] && !NoHead(v, n)
    && HeadSlot(free) in m.at && Word0(v, 0, 1) == m.at[HeadSlot(free)]
    && forall u :: u in m'.at <==> u == s || (u in m.at && u != Free(free - 1))
  }

  /** With one block less on the stack, the references to the others are where they were, but for the one in
      a node that was popped. */
  lemma HolderStill(free: nat, t: Slot)
    requires free > 0 && (t.Free? ==> t.p < free - 1)
    ensures HolderOf(free - 1, t) == HolderOf(free, t) != Holder.Slot(Free(free - 1))
      || (HolderOf(free - 1, t) == Super && HolderOf(free, t) == Holder.Slot(Free(free - 1)) && t.Free? && t.p % G == 0
          && t.p + G == free - 1)
  {
  }

  lemma NotFree(s: Slot, n: nat)
    requires InFile(s, n)
    ensures !s.Free?
  {
  }

  lemma GivenDomain(v: seq<Block>, n: nat, m: Map, m': Map, free: nat, s: Slot)
    requires Giving(v, n, m, m', free, s)
    ensures Domain(n, m', free - 1)
  {
    hide Bijective, SuperOk, Referred, Fits, PopResult, Move, Word0, HolderOf, InFile;
    NotFree(s, n);
    forall t | t in m'.at ensures (t.Free? || InFile(t, n)) && Held(m', free - 1, t) {
      HolderStill(free, t);
      if t != s { assert Held(m, free, t); }
    }
  }

  /** The place where the reference to s is put is not in a free block or the superblock. */
  lemma FilePlace(n: nat, m: Map, free: nat, s: Slot)
    requires Bijective(m) && 1 + n + |m.own| < TWO32 && InFile(s, n) && Held(m, free, s)
    ensures 0 < HolderBlock(n, m, HolderOf(free, s)) < 1 + n + |m.own| && HolderWord(s) < E
    ensures forall t :: t in m.at && t.Free? ==> HolderBlock(n, m, HolderOf(free, s)) != Abs(n, m.at[t])
    ensures forall t :: t in m.at && t.Data? ==> HolderBlock(n, m, HolderOf(free, s)) != Abs(n, m.at[t])
  {
    var h := HolderOf(free, s);
    if h.Slot? { AbsDistinct(n, m, h.slot, h.slot); }
    forall t | t in m.at && (t.Free? || t.Data?) ensures HolderBlock(n, m, h) != Abs(n, m.at[t]) {
      AbsDistinct(n, m, t, t);
      if h.Slot? { AbsDistinct(n, m, h.slot, t); }
    }
  }

  /** A pop changes the superblock only. */
  lemma PoppedElsewhere(v: seq<Block>, n: nat, b: nat, w: nat)
    requires b > 0 && |v| > 0
    ensures Word0(Popped(v, n), b, w) == Word0(v, b, w)
    ensures Word0(Popped(v, n), 0, 0) == Word0(v, 0, 0)
    ensures b < |v| ==> Popped(v, n)[b] == v[b]
  {
  }

  lemma GivenItself(v: seq<Block>, n: nat, m: Map, m': Map, free: nat, s: Slot)
    requires Giving(v, n, m, m', free, s)
    ensures Referred(Given(v, n, m, free, s), n, m', free - 1, s)
  {
    FilePlace(n, m, free, s);
    var h := HolderOf(free, s);
    assert HolderOf(free - 1, s) == h;
    if h.Slot? { assert m'.at[h.slot] == m.at[h.slot]; }
    WrittenWord(Popped(v, n), HolderBlock(n, m, h), HolderWord(s), PopResult(v, n), HolderBlock(n, m, h), HolderWord(s));
  }

  lemma GivenOther(v: seq<Block>, n: nat, m: Map, m': Map, free: nat, s: Slot, t: Slot)
    requires Giving(v, n, m, m', free, s) && t in m'.at && t != s && !t.Free?
    ensures Referred(Given(v, n, m, free, s), n, m', free - 1, t)
  {
    hide Popped, PopResult, SuperOk, Move;
    var h, b, w := HolderOf(free, t), HolderBlock(n, m, HolderOf(free, t)), HolderWord(t);
    assert Referred(v, n, m, free, t) && HolderOf(free - 1, t) == h;
    FilePlace(n, m, free, s);
    FilePlace(n, m, free, t);
    PlacesDistinct(n, m, free, s, t);
    PoppedElsewhere(v, n, b, w);
    WrittenWord(Popped(v, n), HolderBlock(n, m, HolderOf(free, s)), HolderWord(s), PopResult(v, n), b, w);
    MovedAt(m, free, s, t);
    if h.Slot? { MovedAt(m, free, s, h.slot); }
  }

  lemma MovedAt(m: Map, free: nat, s: Slot, t: Slot)
    requires free > 0 && Free(free - 1) in m.at && m.at[Free(free - 1)] < |m.own| && t != s && t != Free(free - 1)
    ensures At(Move(m, Free(free - 1), s), t) == At(m, t)
  {
  }
  /** What a pop does to the superblock */
  lemma PopSuper(v: seq<Block>, n: nat, m: Map, free: nat)
    requires Inv(v, n, m, free) && free > 0
    requires HeadSlot(free) in m.at && Word0(v, 0, 1) == m.at[HeadSlot(free)] && !NoHead(v, n)
    ensures var w, k := Popped(v, n), (free - 1) % G;
      && Word0(w, 0, 0) == n
      && Word0(w, 0, 1) == (if k > 0 then Word0(v, 0, 1) else Word0(v, Abs(n, At(m, Free(free - 1))), 1))
      && Word0(w, 0, 2) == (if k > 0 then k - 1 else G - 1)
  {
    hide Referred, Bijective, Domain;
    HeadArith(free);
    InvSuper(v, n, m, free);
  }

  lemma InvSuper(v: seq<Block>, n: nat, m: Map, free: nat)
    requires Inv(v, n, m, free)
    ensures |v| > 0 && SuperOk(v, n, m, free)
  {
  }

  lemma LessArith(free: nat)
    requires free > 1
    ensures (free - 1 + G - 1) % G == (if (free - 1) % G > 0 then (free - 1) % G - 1 else G - 1)
  {
  }

  lemma GivenSuper(v: seq<Block>, n: nat, m: Map, m': Map, free: nat, s: Slot)
    requires Giving(v, n, m, m', free, s)
    ensures SuperOk(Given(v, n, m, free, s), n, m', free - 1)
  {
    hide Popped, PopResult, Move, Inv, HolderOf, InFile, Bijective;
    InvFits(v, n, m, free);
    InvSuper(v, n, m, free);
    FilePlace(n, m, free, s);
    PopSuper(v, n, m, free);
    GivenWord(v, n, m, free, s, 0, 0);
    GivenWord(v, n, m, free, s, 0, 1);
    GivenWord(v, n, m, free, s, 0, 2);
    if free > 1 {
      LessArith(free);
      FreeIn(v, n, m, free, 0);
      AbsDistinct(n, m, Free(0), Free(0));
      MovedAt(m, free, s, Free(0));
      GivenWord(v, n, m, free, s, Abs(n, At(m, Free(0))), 1);
      PoppedElsewhere(v, n, Abs(n, At(m, Free(0))), 1);
    }
  }

  lemma GivenFree(v: seq<Block>, n: nat, m: Map, m': Map, free: nat, s: Slot, t: Slot)
    requires Giving(v, n, m, m', free, s) && t in m'.at && t.Free?
    ensures Referred(Given(v, n, m, free, s), n, m', free - 1, t)
  {
    hide Popped, PopResult, SuperOk, Move, Inv, HolderOf, InFile, Bijective;
    InvFits(v, n, m, free);
    InvSuper(v, n, m, free);
    GivingFree(v, n, m, m', free, s, t);
    HolderStill(free, t);
    HolderSuper(free, t);
    FilePlace(n, m, free, s);
    MovedAt(m, free, s, t);
    PopSuper(v, n, m, free);
    var h := HolderOf(free, t);
    GivenWord(v, n, m, free, s, 0, 1);
    if h.Slot? {
      AbsDistinct(n, m, h.slot, h.slot);
      var b := Abs(n, m.at[h.slot]);
      GivenWord(v, n, m, free, s, b, HolderWord(t));
      PoppedElsewhere(v, n, b, HolderWord(t));
      if h.slot != Free(free - 1) { MovedAt(m, free, s, h.slot); }
    }
  }

  /** The superblock refers to the head, which is popped last. */
  lemma HolderSuper(free: nat, t: Slot)
    requires free > 0 && t.Free? && t.p < free - 1
    ensures HolderOf(free, t) == Super ==> (free - 1) % G > 0 && HolderWord(t) == 1
    ensures HolderOf(free, t) != Super ==> HolderOf(free, t).Slot? && HolderOf(free, t).slot.Free?
    ensures HolderOf(free, t) == Holder.Slot(Free(free - 1)) ==> HolderWord(t) == 1 && (free - 1) % G == 0
  {
  }

  lemma GivingFree(v: seq<Block>, n: nat, m: Map, m': Map, free: nat, s: Slot, t: Slot)
    requires Giving(v, n, m, m', free, s) && t in m'.at && t.Free?
    ensures t.p < free - 1 && t in m.at && Referred(v, n, m, free, t) && Held(m, free, t)
  {
  }

  /** A block popped for slot s of a file */
  lemma GiveKeeps(v: seq<Block>, n: nat, m: Map, free: nat, s: Slot)
    requires Inv(v, n, m, free) && free > 0 && InFile(s, n) && s !in m.at && Held(m, free, s)
    ensures Free(free - 1) in m.at
    ensures var m' := Move(m, Free(free - 1), s);
      && Inv(Given(v, n, m, free, s), n, m', free - 1)
      && SameData(v, Given(v, n, m, free, s), n, m, m')
      && (forall t :: t in m'.at <==> t == s || (t in m.at && t != Free(free - 1)))
  {
    hide Bijective, Referred, SuperOk, Domain, PopResult, Held, SameData, Given, Popped;
    PopIs(v, n, m, free);
    HeadIs(v, n, m, free);
    InvFits(v, n, m, free);
    FreeIn(v, n, m, free, free - 1);
    MoveBijective(m, Free(free - 1), s);
    var m', w := Move(m, Free(free - 1), s), Given(v, n, m, free, s);
    GivenDomain(v, n, m, m', free, s);
    GivenSuper(v, n, m, m', free, s);
    GivenData(v, n, m, m', free, s);
    forall t | t in m'.at ensures Referred(w, n, m', free - 1, t) {
      if t == s { GivenItself(v, n, m, m', free, s); }
      else if t.Free? { GivenFree(v, n, m, m', free, s, t); }
      else { GivenOther(v, n, m, m', free, s, t); }
    }
  }

  lemma GivenData(v: seq<Block>, n: nat, m: Map, m': Map, free: nat, s: Slot)
    requires Giving(v, n, m, m', free, s)
    ensures SameData(v, Given(v, n, m, free, s), n, m, m') && Fits(Given(v, n, m, free, s), n, m')
  {
    hide Popped, PopResult, SuperOk, Move, HolderOf, InFile;
    FilePlace(n, m, free, s);
    forall ino, off | Data(ino, off) in m.at && Data(ino, off) in m'.at
      ensures SameBlock(v, Given(v, n, m, free, s), n, m, m', Data(ino, off))
    {
      var t := Data(ino, off);
      AbsDistinct(n, m, t, t);
      MovedAt(m, free, s, t);
      PoppedElsewhere(v, n, Abs(n, m.at[t]), 0);
    }
  }

  lemma GivenWord(v: seq<Block>, n: nat, m: Map, free: nat, s: Slot, b: nat, w: nat)
    requires |v| > 0 && HolderBlock(n, m, HolderOf(free, s)) > 0
    requires HolderBlock(n, m, HolderOf(free, s)) < |v| && HolderWord(s) < E
    requires b != HolderBlock(n, m, HolderOf(free, s))
    ensures Word0(Given(v, n, m, free, s), b, w) == Word0(Popped(v, n), b, w)
  {
  }

  /** unixdisk_pushfree: the disk it leaves. A block pushed on a full node is made a node, like the one before
      but for what is next. */
  function Pushed(v: seq<Block>, n: nat, b: Word): (r: seq<Block>)
    ensures |r| == |v|
  {
    var head := Abs(n, Word0(v, 0, 1));
    if head >= |v| then v
    else if v[0][2] < G - 1 then Written(v, head, 2 + v[0][2], b)[0 := v[0][2 := v[0][2] + 1]]
    else if Abs(n, b) >= |v| then v
    else v[Abs(n, b) := v[head][1 := v[0][1]]][0 := v[0][1 := b][2 := 0]]
  }

  ghost predicate Leaf(m: Map, free: nat, s: Slot) {
    forall t :: t in m.at ==> HolderOf(free, t) != Holder.Slot(s)
  }

  ghost predicate Pushing(v: seq<Block>, n: nat, m: Map, m': Map, free: nat, s: Slot) {
    && Inv(v, n, m, free) && s in m.at && !s.Free? && Leaf(m, free, s)
    && m.at[s] < |m.own| && m' == Move(m, s, Free(free)) && Bijective(m') && |m'.own| == |m.own| && Free(free) !in m.at
    && (free > 0 ==> HeadSlot(free) in m.at && Word0(v, 0, 1) == m.at[HeadSlot(free)] != NONE)
    && forall u :: u in m'.at <==> u == Free(free) || (u in m.at && u != s)
  }

  lemma PushedAt(m: Map, free: nat, s: Slot, t: Slot)
    requires s in m.at && m.at[s] < |m.own| && t != s && t != Free(free)
    ensures At(Move(m, s, Free(free)), t) == At(m, t) && At(Move(m, s, Free(free)), Free(free)) == m.at[s]
  {
  }

  /** A push on a node that is not full */
  lemma PushEntry(v: seq<Block>, n: nat, h: nat, k: nat, x: Word, b: nat, u: nat)
    requires 0 < h < |v| && h == Abs(n, Word0(v, 0, 1)) && 0 < k < G && Word0(v, 0, 2) == k - 1
    ensures var w := Pushed(v, n, x);
      && Word0(w, 0, 0) == Word0(v, 0, 0) && Word0(w, 0, 1) == Word0(v, 0, 1) && Word0(w, 0, 2) == k
      && (b > 0 ==> Word0(w, b, u) == if b == h && u == 1 + k then x else Word0(v, b, u))
      && (0 < b < |v| && b != h ==> w[b] == v[b])
  {
  }

  /** A push on a full node, or on nothing */
  lemma PushNode(v: seq<Block>, n: nat, c: nat, x: Word, b: nat, u: nat)
    requires 0 < c < |v| && c == Abs(n, x) && Abs(n, Word0(v, 0, 1)) < |v| && Word0(v, 0, 2) == G - 1
    ensures var w := Pushed(v, n, x);
      && Word0(w, 0, 0) == Word0(v, 0, 0) && Word0(w, 0, 1) == x && Word0(w, 0, 2) == 0
      && Word0(w, c, 1) == Word0(v, 0, 1)
      && (b > 0 && b != c ==> Word0(w, b, u) == Word0(v, b, u))
      && (0 < b < |v| && b != c ==> w[b] == v[b])
  {
  }

  lemma NextArith(free: nat)
    requires free % G != 0
    ensures free > 0 && (free + G - 1) % G == free % G - 1 && free - free % G >= 0
    ensures HeadSlot(free) == Free(free - free % G)
  {
  }

  lemma FullArith(free: nat)
    requires free % G == 0
    ensures (free + G - 1) % G == G - 1
  {
  }

  /** Where a push finds the node to write to */
  lemma PushHead(v: seq<Block>, n: nat, m: Map, m': Map, free: nat, s: Slot)
    requires Pushing(v, n, m, m', free, s)
    ensures Fits(v, n, m) && Word0(v, 0, 0) == n && Abs(n, Word0(v, 0, 1)) < |v| && n < Abs(n, At(m, s)) < |v|
    ensures free % G == 0 ==> Word0(v, 0, 2) == G - 1
    ensures free == 0 ==> Word0(v, 0, 1) == NONE
    ensures free % G != 0 ==> Word0(v, 0, 2) + 1 == free % G
    ensures free % G != 0 ==> free > 0 && n < Abs(n, Word0(v, 0, 1)) == Abs(n, At(m, HeadSlot(free)))
  {
    hide Referred, Domain, Move, Leaf, Inv, HeadSlot;
    InvFits(v, n, m, free);
    InvSuper(v, n, m, free);
    AbsDistinct(n, m, s, s);
    if free % G == 0 { FullArith(free); } else { NextArith(free); }
    if free > 0 { AbsDistinct(n, m, HeadSlot(free), HeadSlot(free)); }
  }

  /** What a push leaves as it was */
  lemma PushedOther(v: seq<Block>, n: nat, m: Map, m': Map, free: nat, s: Slot, b: nat, u: nat)
    requires Pushing(v, n, m, m', free, s) && b > 0 && b != Abs(n, m.at[s])
    requires free % G != 0 && b == Abs(n, Word0(v, 0, 1)) ==> u != 1 + free % G
    ensures Word0(Pushed(v, n, m.at[s]), b, u) == Word0(v, b, u)
    ensures b < |v| && (free % G != 0 ==> b != Abs(n, Word0(v, 0, 1))) ==> Pushed(v, n, m.at[s])[b] == v[b]
  {
    hide Referred, Domain, Move, Leaf, Pushed, Inv, HeadSlot;
    PushHead(v, n, m, m', free, s);
    var h := Abs(n, Word0(v, 0, 1));
    if free % G == 0 { PushNode(v, n, Abs(n, m.at[s]), m.at[s], b, u); }
    else { PushEntry(v, n, h, free % G, m.at[s], b, u); }
  }

  /** With one block more on the stack, only the reference to a full head is elsewhere. */
  lemma HolderGrown(free: nat, t: Slot)
    requires t.Free? ==> t.p < free
    ensures HolderOf(free + 1, t) == HolderOf(free, t)
      || (HolderOf(free + 1, t) == Holder.Slot(Free(free)) && HolderOf(free, t) == Super && free % G == 0 && free > 0
          && t == HeadSlot(free) && HolderWord(t) == 1)
  {
  }

  lemma PushingHas(v: seq<Block>, n: nat, m: Map, m': Map, free: nat, s: Slot, t: Slot)
    requires Pushing(v, n, m, m', free, s) && t in m'.at && t != Free(free)
    ensures t in m.at && t != s && (t.Free? ==> t.p < free) && (!t.Free? ==> InFile(t, n))
    ensures Referred(v, n, m, free, t) && Held(m, free, t) && HolderOf(free, t) != Holder.Slot(s)
  {
  }

  lemma PushedDomain(v: seq<Block>, n: nat, m: Map, m': Map, free: nat, s: Slot)
    requires Pushing(v, n, m, m', free, s)
    ensures Domain(n, m', free + 1)
  {
    hide Bijective, SuperOk, Referred, Fits, Move, Word0, HolderOf, InFile, Leaf;
    assert forall p: nat :: Free(p) in m'.at <==> p < free + 1;
    NodeHeld(free);
    forall t | t in m'.at ensures (t.Free? || InFile(t, n)) && Held(m', free + 1, t) {
      if t != Free(free) {
        PushingHas(v, n, m, m', free, s, t);
        HolderGrown(free, t);
      }
    }
  }

  lemma NodeHeld(free: nat)
    ensures HolderOf(free + 1, Free(free)) == if free % G == 0 then Super else Holder.Slot(Free(free - free % G))
    ensures HolderWord(Free(free)) == 1 + free % G
  {
  }

  lemma PushedNew(v: seq<Block>, n: nat, m: Map, m': Map, free: nat, s: Slot)
    requires Pushing(v, n, m, m', free, s)
    ensures Referred(Pushed(v, n, m.at[s]), n, m', free + 1, Free(free))
  {
    hide SuperOk, Inv, HolderOf, HolderWord, Leaf, Pushed, Domain, InFile;
    PushHead(v, n, m, m', free, s);
    NodeHeld(free);
    var x, h := m.at[s], Abs(n, Word0(v, 0, 1));
    if free % G == 0 {
      PushNode(v, n, Abs(n, x), x, 0, 0);
    } else {
      NextArith(free);
      PushEntry(v, n, h, free % G, x, h, 1 + free % G);
      PushedAt(m, free, s, HeadSlot(free));
    }
  }

  /** In the head, there is no other reference where the next is put. */
  lemma NextFree(free: nat, t: Slot)
    requires free > 0 && free % G != 0 && (t.Free? ==> t.p < free)
    ensures HolderOf(free, t) == Holder.Slot(Free(free - free % G)) ==> HolderWord(t) != 1 + free % G
    ensures HolderOf(free, t) == Super ==> HolderWord(t) == 1
  {
  }

  lemma SuperMoves(free: nat, t: Slot)
    requires free % G == 0 && (t.Free? ==> t.p < free)
    ensures HolderOf(free + 1, t) != Super
  {
  }

  lemma PushedStill(v: seq<Block>, n: nat, m: Map, m': Map, free: nat, s: Slot, t: Slot)
    requires Pushing(v, n, m, m', free, s) && t in m'.at && t != Free(free)
    requires HolderOf(free + 1, t) == HolderOf(free, t)
    ensures Referred(Pushed(v, n, m.at[s]), n, m', free + 1, t)
  {
    hide SuperOk, Inv, HolderOf, HolderWord, Leaf, Pushed, Domain, Move;
    InvFits(v, n, m, free);
    PushHead(v, n, m, m', free, s);
    PushingHas(v, n, m, m', free, s, t);
    PushedAt(m, free, s, t);
    var g, x, h := HolderOf(free, t), m.at[s], Abs(n, Word0(v, 0, 1));
    if free % G != 0 {
      NextArith(free);
      NextFree(free, t);
    } else {
      SuperMoves(free, t);
    }
    match g
    case Super => PushEntry(v, n, h, free % G, x, 0, 0);
    case Inode(ino) =>
      InodeHolder(free, t, n);
      PushedOther(v, n, m, m', free, s, InodeBlock(ino), HolderWord(t));
    case Slot(k) =>
      PushedAt(m, free, s, k);
      AbsDistinct(n, m, k, s);
      if free % G != 0 { AbsDistinct(n, m, k, HeadSlot(free)); }
      PushedOther(v, n, m, m', free, s, Abs(n, m.at[k]), HolderWord(t));
  }

  lemma InodeHolder(free: nat, t: Slot, n: nat)
    requires InFile(t, n) || t.Free?
    ensures HolderOf(free, t).Inode? ==> 0 < InodeBlock(HolderOf(free, t).ino) <= n
  {
  }

  lemma PushedRefs(v: seq<Block>, n: nat, m: Map, m': Map, free: nat, s: Slot, t: Slot)
    requires Pushing(v, n, m, m', free, s) && t in m'.at
    ensures Referred(Pushed(v, n, m.at[s]), n, m', free + 1, t)
  {
    hide SuperOk, Inv, HolderOf, HolderWord, Leaf, Pushed, Move, Domain;
    if t == Free(free) {
      PushedNew(v, n, m, m', free, s);
    } else {
      PushHead(v, n, m, m', free, s);
      PushingHas(v, n, m, m', free, s, t);
      HolderGrown(free, t);
      PushedAt(m, free, s, t);
      if HolderOf(free + 1, t) == HolderOf(free, t) {
        PushedStill(v, n, m, m', free, s, t);
      } else {
        PushNode(v, n, Abs(n, m.at[s]), m.at[s], 0, 0);
      }
    }
  }

  lemma GrownArith(free: nat)
    ensures (free + 1 + G - 1) % G == free % G
  {
  }

  lemma PushedTop(m: Map, free: nat, s: Slot)
    requires s in m.at && m.at[s] < |m.own|
    ensures At(Move(m, s, Free(free)), Free(free)) == m.at[s]
  {
  }

  lemma PushedSuper(v: seq<Block>, n: nat, m: Map, m': Map, free: nat, s: Slot)
    requires Pushing(v, n, m, m', free, s)
    ensures SuperOk(Pushed(v, n, m.at[s]), n, m', free + 1)
  {
    hide Inv, HolderOf, HolderWord, Leaf, Pushed, Move, Domain, HeadSlot;
    InvFits(v, n, m, free);
    PushHead(v, n, m, m', free, s);
    PushedTop(m, free, s);
    GrownArith(free);
    var x, h := m.at[s], Abs(n, Word0(v, 0, 1));
    if free % G == 0 { PushNode(v, n, Abs(n, x), x, 0, 0); } else { PushEntry(v, n, h, free % G, x, 0, 0); }
    if free > 0 {
      FreeIn(v, n, m, free, 0);
      InvSuper(v, n, m, free);
      AbsDistinct(n, m, Free(0), s);
      PushedAt(m, free, s, Free(0));
      PushedOther(v, n, m, m', free, s, Abs(n, m.at[Free(0)]), 1);
    }
  }

  lemma PushedData(v: seq<Block>, n: nat, m: Map, m': Map, free: nat, s: Slot)
    requires Pushing(v, n, m, m', free, s)
    ensures SameData(v, Pushed(v, n, m.at[s]), n, m, m')
  {
    hide Inv, HolderOf, HolderWord, Leaf, Pushed, Move, Domain;
    InvFits(v, n, m, free);
    PushHead(v, n, m, m', free, s);
    forall ino, off | Data(ino, off) in m.at && Data(ino, off) in m'.at
      ensures SameBlock(v, Pushed(v, n, m.at[s]), n, m, m', Data(ino, off))
    {
      var t := Data(ino, off);
      AbsDistinct(n, m, t, s);
      if free % G != 0 { AbsDistinct(n, m, t, HeadSlot(free)); }
      PushedAt(m, free, s, t);
      PushedOther(v, n, m, m', free, s, Abs(n, m.at[t]), 0);
    }
  }

  /** A block of a file pushed, once no reference is in it */
  lemma PushKeeps(v: seq<Block>, n: nat, m: Map, free: nat, s: Slot)
    requires Inv(v, n, m, free) && s in m.at && !s.Free? && Leaf(m, free, s)
    ensures m.at[s] < |m.own| < TWO32
    ensures var m' := Move(m, s, Free(free));
      && Inv(Pushed(v, n, m.at[s]), n, m', free + 1)
      && SameData(v, Pushed(v, n, m.at[s]), n, m, m')
      && (forall t :: t in m'.at <==> t == Free(free) || (t in m.at && t != s))
  {
    hide Referred, SuperOk, Domain, Held, SameData, Pushed, HolderOf;
    InvFits(v, n, m, free);
    if free > 0 { HeadIs(v, n, m, free); }
    FreeOut(v, n, m, free);
    MoveBijective(m, s, Free(free));
    var m' := Move(m, s, Free(free));
    PushedDomain(v, n, m, m', free, s);
    PushedSuper(v, n, m, m', free, s);
    PushedData(v, n, m, m', free, s);
    forall t | t in m'.at ensures Referred(Pushed(v, n, m.at[s]), n, m', free + 1, t) {
      PushedRefs(v, n, m, m', free, s, t);
    }
  }

  lemma FreeOut(v: seq<Block>, n: nat, m: Map, free: nat)
    requires Inv(v, n, m, free)
    ensures Free(free) !in m.at
  {
  }

  // ---- last in, first out ----

  /** The free blocks, from the bottom of the stack */
  function Stack(m: Map, free: nat): (s: seq<nat>)
    ensures |s| == free && forall p :: 0 <= p < free ==> s[p] == At(m, Free(p))
  {
    if free == 0 then [] else Stack(m, free - 1) + [At(m, Free(free - 1))]
  }

  lemma PopsTop(v: seq<Block>, n: nat, m: Map, free: nat, s: Slot)
    requires Inv(v, n, m, free) && free > 0 && InFile(s, n) && s !in m.at && Held(m, free, s)
    ensures Free(free - 1) in m.at && m.at[Free(free - 1)] < |m.own|
    ensures var m' := Move(m, Free(free - 1), s);
      && Inv(Given(v, n, m, free, s), n, m', free - 1)
      && Stack(m, free) == Stack(m', free - 1) + [PopResult(v, n)]
  {
    hide Inv, Held, Given, Move, PopResult;
    GiveKeeps(v, n, m, free, s);
    PopIs(v, n, m, free);
    FreeIn(v, n, m, free, free - 1);
    NotFree(s, n);
    forall p: nat | p < free - 1 ensures At(Move(m, Free(free - 1), s), Free(p)) == At(m, Free(p)) {
      MovedAt(m, free, s, Free(p));
    }
  }

  lemma PushesTop(v: seq<Block>, n: nat, m: Map, free: nat, s: Slot)
    requires Inv(v, n, m, free) && s in m.at && !s.Free? && Leaf(m, free, s)
    ensures m.at[s] < |m.own| < TWO32
    ensures var m' := Move(m, s, Free(free));
      && Inv(Pushed(v, n, m.at[s]), n, m', free + 1)
      && Stack(m', free + 1) == Stack(m, free) + [m.at[s]]
  {
    hide Inv, Leaf, Pushed, Move;
    PushKeeps(v, n, m, free, s);
    PushedTop(m, free, s);
    forall p: nat | p < free ensures At(Move(m, s, Free(free)), Free(p)) == At(m, Free(p)) {
      PushedAt(m, free, s, Free(p));
    }
  }
}
