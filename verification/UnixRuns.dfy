/** The inode store from an empty disk, and over any operations. */
module UnixRuns {
  import opened Radix
  import opened UnixLayout
  import opened UnixDisks

  // ---- the free list of a new disk ----

  /** The data block p places up the stack: the head has the first r, and is followed by q full nodes. */
  function StartBlock(q: nat, r: nat, p: nat): (b: nat)
    requires p < q * G + r && r < G
    ensures b < q * G + r
  {
    if p / G == q then p % G else r + (q - 1 - p / G) * G + p % G
  }

  function StartSlot(q: nat, r: nat, b: nat): (p: nat)
    requires b < q * G + r && r < G
    ensures p < q * G + r
  {
    if b < r then q * G + b else (q - 1 - (b - r) / G) * G + (b - r) % G
  }

  lemma Quotient(g: nat, k: nat)
    requires k < G
    ensures (g * G + k) / G == g && (g * G + k) % G == k
  {
  }

  lemma SlotOfBlock(q: nat, r: nat, p: nat)
    requires p < q * G + r && r < G
    ensures StartSlot(q, r, StartBlock(q, r, p)) == p
  {
    if p / G < q { Quotient(q - 1 - p / G, p % G); }
  }

  lemma BlockOfSlot(q: nat, r: nat, b: nat)
    requires b < q * G + r && r < G
    ensures StartBlock(q, r, StartSlot(q, r, b)) == b
  {
    if b < r { Quotient(q, b); } else { Quotient(q - 1 - (b - r) / G, (b - r) % G); }
  }

  lemma StartInverse(q: nat, r: nat, p: nat)
    requires p < q * G + r && r < G
    ensures StartSlot(q, r, StartBlock(q, r, p)) == p && StartBlock(q, r, StartSlot(q, r, p)) == p
  {
    SlotOfBlock(q, r, p);
    BlockOfSlot(q, r, p);
  }

  ghost function StartMap(q: nat, r: nat): (m: Map)
    requires r < G
    ensures |m.own| == q * G + r
    ensures forall b :: 0 <= b < |m.own| ==> m.own[b] == Free(StartSlot(q, r, b))
    ensures forall s :: s in m.at <==> s.Free? && s.p < q * G + r
    ensures forall p: nat :: p < q * G + r ==> m.at[Free(p)] == StartBlock(q, r, p)
  {
    Map(seq(q * G + r, b requires 0 <= b < q * G + r => Free(StartSlot(q, r, b))),
        map p: nat | p < q * G + r :: Free(p) := StartBlock(q, r, p))
  }

  /** The data block of node i of the q full ones */
  function NodeAt(r: nat, i: nat): nat {
    r + i * G
  }

  predicate NodeOk(b: Block, q: nat, r: nat, i: nat) {
    && b[1] == (if i + 1 == q then NONE else NodeAt(r, i + 1))
    && forall w :: 2 <= w < E ==> b[w] == NodeAt(r, i) + w - 1
  }

  predicate HeadOk(b: Block, q: nat, r: nat) {
    && b[1] == (if q > 0 then r else NONE)
    && forall w :: 2 <= w <= r && w < E ==> b[w] == w - 1
  }

  ghost predicate Sizes(v: seq<Block>, n: nat, q: nat, r: nat) {
    |v| == 1 + n + q * G + r < TWO32 && n * INODES < TWO32 && 0 < r < G
  }

  ghost predicate Node(v: seq<Block>, n: nat, q: nat, r: nat, i: nat) {
    1 + n + NodeAt(r, i) < |v| && NodeOk(v[1 + n + NodeAt(r, i)], q, r, i)
  }

  ghost predicate Started(v: seq<Block>, n: nat, q: nat, r: nat) {
    && Sizes(v, n, q, r)
    && v[0][0] == n && v[0][1] == 0 && v[0][2] == r - 1
    && (forall c :: 1 <= c <= n ==> v[c] == Nulls(E))
    && HeadOk(v[n + 1], q, r)
    && forall i :: 0 <= i < q ==> Node(v, n, q, r, i)
  }

  lemma StartArith(q: nat, r: nat, p: nat)
    requires p < q * G + r && 0 < r < G
    ensures p / G <= q && (p / G == q ==> p % G < r)
    ensures StartBlock(q, r, p) == (if p / G == q then 0 else NodeAt(r, q - 1 - p / G)) + p % G
    ensures StartBlock(q, r, p - p % G) == if p / G == q then 0 else NodeAt(r, q - 1 - p / G)
  {
    assert (p - p % G) / G == p / G && (p - p % G) % G == 0;
  }

  lemma NextArith(q: nat, r: nat, p: nat)
    requires p < q * G + r && 0 < r < G && p % G == 0
    ensures p + G < q * G + r ==> p / G < q && StartBlock(q, r, p + G) == if p / G + 1 == q then 0 else NodeAt(r, q - 2 - p / G)
    ensures p + G >= q * G + r ==> p / G == q
  {
    assert (p + G) / G == p / G + 1 && (p + G) % G == 0;
  }

  lemma NodeIn(v: seq<Block>, n: nat, q: nat, r: nat, i: nat)
    requires Started(v, n, q, r) && i < q
    ensures Node(v, n, q, r, i)
  {
  }

  lemma StartEntry(v: seq<Block>, n: nat, q: nat, r: nat, p: nat)
    requires Started(v, n, q, r) && p < q * G + r && p % G > 0
    ensures Word0(v, Abs(n, StartBlock(q, r, p - p % G)), 1 + p % G) == StartBlock(q, r, p)
  {
    hide StartBlock, StartSlot, Started;
    StartOk(v, n, q, r);
    StartArith(q, r, p);
    if p / G < q { NodeIn(v, n, q, r, q - 1 - p / G); }
  }

  lemma StartNext(v: seq<Block>, n: nat, q: nat, r: nat, p: nat)
    requires Started(v, n, q, r) && p < q * G + r && p % G == 0
    ensures p + G < q * G + r ==> Word0(v, Abs(n, StartBlock(q, r, p + G)), 1) == StartBlock(q, r, p)
    ensures p + G >= q * G + r ==> Word0(v, 0, 1) == StartBlock(q, r, p)
  {
    hide StartBlock, StartSlot, Started;
    StartOk(v, n, q, r);
    StartArith(q, r, p);
    NextArith(q, r, p);
    if p + G < q * G + r && p / G + 1 < q { NodeIn(v, n, q, r, q - 2 - p / G); }
  }

  lemma StartRef(v: seq<Block>, n: nat, q: nat, r: nat, p: nat)
    requires Started(v, n, q, r) && p < q * G + r
    ensures Referred(v, n, StartMap(q, r), q * G + r, Free(p))
  {
    hide StartBlock, StartSlot, Started, Word0;
    if p % G > 0 { StartEntry(v, n, q, r, p); } else { StartNext(v, n, q, r, p); }
  }

  lemma StartOk(v: seq<Block>, n: nat, q: nat, r: nat)
    requires Started(v, n, q, r)
    ensures Sizes(v, n, q, r) && v[0][1] == 0 && HeadOk(v[n + 1], q, r)
  {
  }

  lemma StartGood(v: seq<Block>, n: nat, q: nat, r: nat)
    requires Started(v, n, q, r)
    ensures Good(v, n, StartMap(q, r), q * G + r)
    ensures forall i :: 0 <= i < n * INODES ==> Size(v, i) == 0
  {
    hide StartBlock, StartSlot, Referred, Bijective, Held;
    var m, free := StartMap(q, r), q * G + r;
    StartBijective(q, r);
    StartSuper(v, n, q, r);
    forall s | s in m.at ensures Referred(v, n, m, free, s) && Held(m, free, s) {
      StartRef(v, n, q, r, s.p);
      StartHeld(q, r, s.p);
    }
    forall i | 0 <= i < n * INODES ensures FileOk(v, m, i) && Size(v, i) == 0 {
      assert v[InodeBlock(i)] == Nulls(E);
    }
  }

  lemma StartHeld(q: nat, r: nat, p: nat)
    requires p < q * G + r && 0 < r < G
    ensures Held(StartMap(q, r), q * G + r, Free(p))
  {
  }

  lemma StartBijective(q: nat, r: nat)
    requires 0 < r < G
    ensures Bijective(StartMap(q, r))
  {
    hide StartBlock, StartSlot;
    forall p: nat | p < q * G + r
      ensures StartSlot(q, r, StartBlock(q, r, p)) == p && StartBlock(q, r, StartSlot(q, r, p)) == p
    {
      StartInverse(q, r, p);
    }
  }

  lemma StartSuper(v: seq<Block>, n: nat, q: nat, r: nat)
    requires Started(v, n, q, r)
    ensures SuperOk(v, n, StartMap(q, r), q * G + r)
  {
    hide StartBlock, StartSlot;
    StartArith(q, r, 0);
    if q > 0 { NodeIn(v, n, q, r, q - 1); }
  }

  // ---- making a disk ----

  function InodeBlocks(ninodes: nat): nat {
    (ninodes + INODES - 1) / INODES
  }

  /** There are inodes for all files asked for, and less than a block of them more. */
  lemma RoundedUp(ninodes: nat)
    ensures ninodes <= InodeBlocks(ninodes) * INODES < ninodes + INODES
  {
  }

  /** How many entries unixdisk_create puts in the head, in 32 bits: one less than are left over */
  function HeadEntries(ndata: nat): Word {
    (ndata % G + TWO32 - 1) % TWO32
  }

  /** They fit exactly if the number of data blocks is no multiple of G. */
  lemma HeadFits(ndata: nat)
    ensures HeadEntries(ndata) <= G - 1 <==> ndata % G != 0
    ensures ndata % G == 0 ==> HeadEntries(ndata) == NONE
  {
  }

  /** unixdisk_create. An old disk stays as it is. The head must hold its entries. */
  method Create(u: UnixDisk, ninodes: nat, junk: Block)
    requires ninodes + INODES < TWO32 && 0 < |u.disk| < TWO32
    requires u.disk[0][0] == 0 ==>
      |u.disk| > 1 + InodeBlocks(ninodes) && HeadEntries(|u.disk| - 1 - InodeBlocks(ninodes)) <= G - 1
    modifies u
    ensures old(u.disk)[0][0] != 0 ==> u.disk == old(u.disk)
    ensures old(u.disk)[0][0] == 0 ==>
      var n := InodeBlocks(ninodes);
      && u.Valid() && u.Inodes() == n * INODES && u.free == |u.disk| - 1 - n && |u.disk| == |old(u.disk)|
      && ninodes <= u.Inodes() < ninodes + INODES && forall i :: 0 <= i < u.Inodes() ==> u.File(i) == []
  {
    RoundedUp(ninodes);
    hide Good, Started, Node, HeadOk, Size;
    var n: Word := InodeBlocks(ninodes);
    if u.disk[0][0] != 0 { return; }
    var sb := u.disk[0];
    ClearInodes(u, n);
    var ndata: Word := |u.disk| - n - 1;
    HeadFits(ndata);
    var q: nat, r: nat := ndata / G, ndata % G;
    var node := FillHead(junk, ndata, r);
    u.disk := u.disk[n + 1 := node];
    WriteNodes(u, n, q, r, node);
    ghost var was := u.disk;
    sb := sb[0 := n][1 := 0][2 := r - 1];
    u.disk := u.disk[0 := sb];
    SuperLast(was, u.disk, n, q, r, sb);
    StartGood(u.disk, n, q, r);
    AllEmpty(u.disk, n, q, r);
    u.v, u.m, u.free := u.disk, StartMap(q, r), q * G + r;
  }

  method ClearInodes(u: UnixDisk, n: nat)
    requires |u.disk| > n
    modifies u`disk
    ensures |u.disk| == |old(u.disk)| && forall c :: 1 <= c <= n ==> u.disk[c] == Nulls(E)
  {
    var i := 1;
    while i <= n
      invariant 1 <= i <= n + 1 && |u.disk| == |old(u.disk)|
      invariant forall c :: 1 <= c < i ==> u.disk[c] == Nulls(E)
    {
      u.disk := u.disk[i := Nulls(E)];
      i := i + 1;
    }
  }

  method WriteNodes(u: UnixDisk, n: nat, q: nat, r: nat, node0: Block)
    requires |u.disk| == 1 + n + q * G + r < TWO32 && 0 < r < G
    modifies u`disk
    ensures |u.disk| == |old(u.disk)| && forall c :: 0 <= c <= n + 1 ==> u.disk[c] == old(u.disk)[c]
    ensures forall i :: 0 <= i < q ==> Node(u.disk, n, q, r, i)
  {
    var i, node := 0, node0;
    while i < q
      invariant 0 <= i <= q && |u.disk| == |old(u.disk)|
      invariant forall c :: 0 <= c <= n + 1 ==> u.disk[c] == old(u.disk)[c]
      invariant forall k :: 0 <= k < i ==> Node(u.disk, n, q, r, k)
    {
      node := FillNode(node, q, r, i);
      ghost var was := u.disk;
      u.disk := u.disk[i * G + r + 1 + n := node];
      NodesKept(was, u.disk, n, q, r, i, node);
      i := i + 1;
    }
  }

  lemma SuperLast(v: seq<Block>, w: seq<Block>, n: nat, q: nat, r: nat, sb: Block)
    requires Sizes(v, n, q, r) && w == v[0 := sb] && sb[0] == n && sb[1] == 0 && sb[2] == r - 1
    requires forall c :: 1 <= c <= n ==> v[c] == Nulls(E)
    requires HeadOk(v[n + 1], q, r) && forall i :: 0 <= i < q ==> Node(v, n, q, r, i)
    ensures Started(w, n, q, r)
  {
    forall i | 0 <= i < q ensures Node(w, n, q, r, i) { assert Node(v, n, q, r, i); }
  }

  lemma AllEmpty(v: seq<Block>, n: nat, q: nat, r: nat)
    requires forall i :: 0 <= i < n * INODES ==> Size(v, i) == 0
    requires Word0(v, 0, 0) == n && r < G
    ensures forall i :: 0 <= i < n * INODES ==> Contents(v, n, StartMap(q, r), i, Size(v, i)) == []
  {
  }

  /** The head: its block records the next r - 1. */
  method FillHead(junk: Block, ndata: nat, r: nat) returns (b: Block)
    requires 0 < r < G && ndata % G == r && ndata < TWO32
    ensures HeadOk(b, ndata / G, r)
  {
    b := junk;
    var j := 0;
    while j < HeadEntries(ndata)
      invariant 0 <= j <= HeadEntries(ndata) == r - 1 && forall w :: 2 <= w < 2 + j ==> b[w] == w - 1
    {
      b := b[2 + j := j + 1];
      j := j + 1;
    }
    b := b[1 := if ndata > r then r else NONE][0 := r - 1];
  }

  /** Full node i of q */
  method FillNode(b0: Block, q: nat, r: nat, i: nat) returns (b: Block)
    requires i < q && r < G && q * G + r < TWO32
    ensures NodeOk(b, q, r, i)
  {
    b := b0;
    var j := 0;
    while j < G - 1
      invariant 0 <= j <= G - 1 && forall w :: 2 <= w < 2 + j ==> b[w] == NodeAt(r, i) + w - 1
    {
      b := b[2 + j := i * G + j + 1 + r];
      j := j + 1;
    }
    b := b[1 := if i == q - 1 then NONE else (i + 1) * G + r][0 := j];
  }

  lemma NodesKept(v: seq<Block>, w: seq<Block>, n: nat, q: nat, r: nat, i: nat, node: Block)
    requires |v| == 1 + n + q * G + r && i < q && 0 < r < G
    requires w == v[i * G + r + 1 + n := node] && NodeOk(node, q, r, i)
    requires forall k :: 0 <= k < i ==> Node(v, n, q, r, k)
    ensures forall k :: 0 <= k <= i ==> Node(w, n, q, r, k)
    ensures forall c :: 0 <= c <= n + 1 ==> w[c] == v[c]
  {
    forall k | 0 <= k <= i ensures Node(w, n, q, r, k) {
      if k < i { assert Node(v, n, q, r, k); }
    }
  }

  // ---- runs ----

  datatype Op =
    | Get(ino: nat, off: nat)
    | Put(ino: nat, off: nat, blk: Block)
    | Cut(ino: nat, size: nat)

  datatype Answer = Got(blk: Block) | Done | Refused | Sized(r: int)

  /** What a client sees: the files, and how many blocks are free */
  datatype State = State(files: seq<seq<Block>>, free: nat)

  predicate Has(s: State, ino: nat, off: nat) {
    ino < |s.files| && off < |s.files[ino]|
  }

  predicate Others(s: State, t: State, ino: nat) {
    |t.files| == |s.files| && forall i :: 0 <= i < |s.files| && i != ino ==> t.files[i] == s.files[i]
  }

  /** There is room for a block at off, and for all below it and all those they are found through; and the
      double indirect block leads there. */
  predicate Room(s: State, ino: nat, off: nat) {
    ino < |s.files| ==>
      off < MAX_BLOCKS && (off < |s.files[ino]| || s.free + Slots(|s.files[ino]|) >= Slots(off + 1))
  }

  /** One operation on plain files; of the blocks before one written past the end, nothing is said. */
  predicate StepOk(s: State, op: Op, a: Answer, t: State) {
    match op
    case Get(ino, off) => t == s && a == if Has(s, ino, off) then Got(s.files[ino][off]) else Refused
    case Put(ino, off, blk) => if ino < |s.files| then a == Done && PutOk(s, ino, off, blk, t) else a == Refused && t == s
    case Cut(ino, size) => ino < |s.files| && a.Sized? && CutOk(s, ino, size, a.r, t)
  }

  predicate PutOk(s: State, ino: nat, off: nat, blk: Block, t: State)
    requires ino < |s.files|
  {
    && Others(s, t, ino)
    && |t.files[ino]| == Greatest(|s.files[ino]|, off + 1) && t.files[ino][off] == blk
    && (forall k :: 0 <= k < |s.files[ino]| && k != off ==> t.files[ino][k] == s.files[ino][k])
    && t.free + Slots(|t.files[ino]|) == s.free + Slots(|s.files[ino]|)
  }

  predicate CutOk(s: State, ino: nat, size: nat, r: int, t: State)
    requires ino < |s.files|
  {
    && Others(s, t, ino)
    && r == (if size == |s.files[ino]| then size else if size > 0 then -1 else 0)
    && t.files[ino] == (if r == 0 then [] else s.files[ino])
    && t.free + Slots(|t.files[ino]|) == s.free + Slots(|s.files[ino]|)
  }

  ghost function FilesOf(v: seq<Block>, n: nat, m: Map, k: nat): (f: seq<seq<Block>>)
    ensures |f| == k && forall i :: 0 <= i < k ==> f[i] == Contents(v, n, m, i, Size(v, i))
  {
    if k == 0 then [] else FilesOf(v, n, m, k - 1) + [Contents(v, n, m, k - 1, Size(v, k - 1))]
  }

  ghost function StateOf(u: UnixDisk): (s: State)
    reads u
    ensures |s.files| == u.Inodes() && s.free == u.free
    ensures forall i :: 0 <= i < |s.files| ==> s.files[i] == u.File(i)
  {
    State(FilesOf(u.disk, Word0(u.disk, 0, 0), u.m, u.Inodes()), u.free)
  }

  method ServeGet(u: UnixDisk, ino: nat, off: nat) returns (a: Answer)
    requires u.Valid() && |u.disk| > 0
    ensures StepOk(StateOf(u), Get(ino, off), a, StateOf(u))
  {
    hide FilesOf, Contents, Good;
    var ok, b := u.Read(ino, off);
    a := if ok then Got(b) else Refused;
  }

  method ServePut(u: UnixDisk, ino: nat, off: nat, blk: Block) returns (a: Answer)
    requires u.Valid() && |u.disk| > 0 && Room(StateOf(u), ino, off)
    modifies u
    ensures u.Valid() && |u.disk| > 0 && u.Inodes() == old(u.Inodes()) && |u.disk| == |old(u.disk)|
    ensures StepOk(old(StateOf(u)), Put(ino, off, blk), a, StateOf(u))
  {
    hide FilesOf, Contents, Good, Slots, Size;
    assert u.Enough(ino, off) || ino >= u.Inodes();
    var ok := u.Write(ino, off, blk);
    a := if ok then Done else Refused;
  }

  method ServeCut(u: UnixDisk, ino: nat, size: nat) returns (a: Answer)
    requires u.Valid() && |u.disk| > 0 && ino < u.Inodes()
    modifies u
    ensures u.Valid() && |u.disk| > 0 && u.Inodes() == old(u.Inodes()) && |u.disk| == |old(u.disk)|
    ensures StepOk(old(StateOf(u)), Cut(ino, size), a, StateOf(u))
  {
    hide FilesOf, Contents, Good, Slots, Size;
    var r := u.SetSize(ino, size);
    a := Sized(r);
  }

  method Serve(u: UnixDisk, op: Op) returns (a: Answer)
    requires u.Valid() && |u.disk| > 0 && (op.Cut? ==> op.ino < u.Inodes())
    requires op.Put? ==> Room(StateOf(u), op.ino, op.off)
    modifies u
    ensures u.Valid() && |u.disk| > 0 && u.Inodes() == old(u.Inodes()) && |u.disk| == |old(u.disk)|
    ensures StepOk(old(StateOf(u)), op, a, StateOf(u))
  {
    hide FilesOf, Contents, Good, StateOf, StepOk, Room;
    match op
    case Get(ino, off) => a := ServeGet(u, ino, off);
    case Put(ino, off, blk) => a := ServePut(u, ino, off, blk);
    case Cut(ino, size) => a := ServeCut(u, ino, size);
  }

  ghost predicate TraceOk(trace: seq<State>, ops: seq<Op>, answers: seq<Answer>) {
    && |trace| == |answers| + 1 && |answers| <= |ops|
    && forall k :: 0 <= k < |answers| ==> StepAt(trace, ops, answers, k)
  }

  predicate StepAt(trace: seq<State>, ops: seq<Op>, answers: seq<Answer>, k: nat)
    requires k < |answers| && k < |ops| && k + 1 < |trace|
  {
    StepOk(trace[k], ops[k], answers[k], trace[k + 1])
  }

  /** The sizes of the files, and how many blocks are free */
  datatype Sizing = Sizing(sizes: seq<nat>, free: int)

  function SizingOf(s: State): (z: Sizing)
    ensures |z.sizes| == |s.files| && forall i :: 0 <= i < |s.files| ==> z.sizes[i] == |s.files[i]|
  {
    Sizing(SizesOf(s.files), s.free)
  }

  function SizesOf(files: seq<seq<Block>>): (z: seq<nat>)
    ensures |z| == |files| && forall i :: 0 <= i < |files| ==> z[i] == |files[i]|
  {
    if files == [] then [] else SizesOf(files[..|files| - 1]) + [|files[|files| - 1]|]
  }

  function Resized(z: Sizing, ino: nat, n: nat): Sizing
    requires ino < |z.sizes|
  {
    Sizing(z.sizes[ino := n], z.free + Slots(z.sizes[ino]) - Slots(n))
  }

  function SizingStep(z: Sizing, op: Op): Sizing {
    match op
    case Get(_, _) => z
    case Put(ino, off, _) => if ino < |z.sizes| then Resized(z, ino, Greatest(z.sizes[ino], off + 1)) else z
    case Cut(ino, size) => if ino < |z.sizes| && size == 0 then Resized(z, ino, 0) else z
  }

  predicate TooFar(z: Sizing, op: Op) {
    op.Put? && op.ino < |z.sizes| && op.off >= MAX_BLOCKS
  }

  lemma SizingStepOk(s: State, op: Op, a: Answer, t: State)
    requires StepOk(s, op, a, t)
    ensures SizingOf(t) == SizingStep(SizingOf(s), op)
  {
    assert SizingOf(t).sizes == SizingStep(SizingOf(s), op).sizes;
  }

  lemma RoomIs(s: State, op: Op)
    requires SizingStep(SizingOf(s), op).free >= 0 && op.Put? && !TooFar(SizingOf(s), op)
    ensures Room(s, op.ino, op.off)
  {
  }

  lemma NoRoomIs(s: State, op: Op)
    requires SizingStep(SizingOf(s), op).free < 0 || TooFar(SizingOf(s), op)
    ensures op.Put? && !Room(s, op.ino, op.off)
  {
  }

  /** How many blocks are free or belong to files */
  function Total(z: Sizing): int {
    z.free + SlotsOf(z.sizes)
  }

  function SlotsOf(sizes: seq<nat>): nat {
    if sizes == [] then 0 else Slots(sizes[|sizes| - 1]) + SlotsOf(sizes[..|sizes| - 1])
  }

  lemma {:induction false} SlotsCounted(v: seq<Block>, sizes: seq<nat>)
    requires forall i :: 0 <= i < |sizes| ==> sizes[i] == Size(v, i)
    ensures SlotsOf(sizes) == FilesSlots(v, |sizes|)
    decreases |sizes|
  {
    hide Slots, Size;
    if sizes != [] { SlotsCounted(v, sizes[..|sizes| - 1]); }
  }

  /** All data blocks of a disk in order are free or belong to files: none is lost. */
  lemma AllCounted(u: UnixDisk)
    requires u.Valid()
    ensures 1 + u.Inodes() / INODES + Total(SizingOf(StateOf(u))) == |u.disk|
  {
    hide Good, StateOf, SizingOf, Size;
    Counted(u.disk, Word0(u.disk, 0, 0), u.m, u.free);
    SizingIs(u);
    SlotsCounted(u.disk, SizingOf(StateOf(u)).sizes);
  }

  lemma SizingIs(u: UnixDisk)
    ensures var z := SizingOf(StateOf(u));
      z.free == u.free && |z.sizes| == u.Inodes() && forall i :: 0 <= i < |z.sizes| ==> z.sizes[i] == Size(u.disk, i)
  {
  }

  /** Any operations, up to the first write there is no room for. At every moment, all data blocks of the disk
      are free or belong to files. z is what the sizes are at first. */
  method Run(u: UnixDisk, ops: seq<Op>, z0: Sizing) returns (answers: seq<Answer>, ghost trace: seq<State>)
    requires u.Valid() && |u.disk| > 0 && z0 == SizingOf(StateOf(u))
    requires forall op :: op in ops && op.Cut? ==> op.ino < u.Inodes()
    modifies u
    ensures u.Valid() && TraceOk(trace, ops, answers) && |u.disk| == |old(u.disk)| && u.Inodes() == old(u.Inodes())
    ensures trace[0] == old(StateOf(u)) && trace[|answers|] == StateOf(u)
    ensures forall k :: 0 <= k <= |answers| ==> 1 + u.Inodes() / INODES + Total(SizingOf(trace[k])) == |u.disk|
    ensures |answers| < |ops| ==>
      var op := ops[|answers|];
      op.Put? && !Room(StateOf(u), op.ino, op.off)
  {
    hide StateOf, StepOk, Room, Good, SizingOf, SizingStep, Total;
    var z := z0;
    answers, trace := [], [StateOf(u)];
    AllCounted(u);
    while |answers| < |ops|
      invariant u.Valid() && |u.disk| == |old(u.disk)| > 0 && u.Inodes() == old(u.Inodes())
      invariant TraceOk(trace, ops, answers) && trace[0] == old(StateOf(u)) && trace[|answers|] == StateOf(u)
      invariant z == SizingOf(StateOf(u))
      invariant forall k :: 0 <= k <= |answers| ==> 1 + u.Inodes() / INODES + Total(SizingOf(trace[k])) == |u.disk|
      decreases |ops| - |answers|
    {
      var op := ops[|answers|];
      ghost var s := StateOf(u);
      var z' := SizingStep(z, op);
      if z'.free < 0 || TooFar(z, op) {
        NoRoomIs(s, op);
        return;
      }
      if op.Put? { RoomIs(s, op); }
      z := z';
      FileCount(u);
      var a := Serve(u, op);
      SizingStepOk(s, op, a, StateOf(u));
      AllCounted(u);
      TraceLonger(trace, ops, answers, a, StateOf(u));
      answers, trace := answers + [a], trace + [StateOf(u)];
    }
  }

  lemma FileCount(u: UnixDisk)
    ensures |StateOf(u).files| == u.Inodes()
  {
  }

  lemma TraceLonger(trace: seq<State>, ops: seq<Op>, answers: seq<Answer>, a: Answer, t: State)
    requires TraceOk(trace, ops, answers) && |answers| < |ops| && StepOk(trace[|answers|], ops[|answers|], a, t)
    ensures TraceOk(trace + [t], ops, answers + [a])
  {
    hide StepOk;
    forall k | 0 <= k < |answers + [a]| ensures StepAt(trace + [t], ops, answers + [a], k) {
      if k < |answers| { assert StepAt(trace, ops, answers, k); }
    }
  }

  /** An operation that leaves a block of a file alone: it writes another, or does not empty the file. */
  predicate Spares(op: Op, ino: nat, off: nat) {
    match op
    case Get(_, _) => true
    case Put(i, o, _) => i != ino || o != off
    case Cut(i, size) => i != ino || size > 0
  }

  /** A block that was written is read back for as long as it is not written again and its file is not emptied. */
  lemma {:induction false} LastWrite(trace: seq<State>, ops: seq<Op>, answers: seq<Answer>, w: nat, k: nat)
    requires TraceOk(trace, ops, answers) && w < k <= |answers| && ops[w].Put? && answers[w] == Done
    requires forall i :: w < i < k ==> Spares(ops[i], ops[w].ino, ops[w].off)
    ensures Has(trace[k], ops[w].ino, ops[w].off) && trace[k].files[ops[w].ino][ops[w].off] == ops[w].blk
    ensures k < |answers| && ops[k] == Get(ops[w].ino, ops[w].off) ==> answers[k] == Got(ops[w].blk)
    decreases k
  {
    assert StepAt(trace, ops, answers, k - 1);
    if k < |answers| { assert StepAt(trace, ops, answers, k); }
    if k > w + 1 { LastWrite(trace, ops, answers, w, k - 1); }
  }

  /** A run on a new disk */
  method CreateAndRun(u: UnixDisk, ninodes: nat, junk: Block, ops: seq<Op>)
    returns (answers: seq<Answer>, ghost trace: seq<State>)
    requires ninodes + INODES < TWO32 && 0 < |u.disk| < TWO32 && u.disk[0][0] == 0
    requires |u.disk| > 1 + InodeBlocks(ninodes) && HeadEntries(|u.disk| - 1 - InodeBlocks(ninodes)) <= G - 1
    requires forall op :: op in ops && op.Cut? ==> op.ino < InodeBlocks(ninodes) * INODES
    modifies u
    ensures u.Valid() && TraceOk(trace, ops, answers) && trace[|answers|] == StateOf(u) && |u.disk| == |old(u.disk)|
    ensures ninodes <= |SizingOf(trace[0]).sizes| < ninodes + INODES
    ensures SizingOf(trace[0]) == NewSizing(InodeBlocks(ninodes) * INODES, |u.disk| - 1 - InodeBlocks(ninodes))
    ensures forall k :: 0 <= k <= |answers| ==> 1 + InodeBlocks(ninodes) + Total(SizingOf(trace[k])) == |u.disk|
    ensures |answers| < |ops| ==>
      var op := ops[|answers|];
      op.Put? && !Room(StateOf(u), op.ino, op.off)
  {
    hide StateOf, Good, SizingOf, NewSizing, TraceOk, u.Valid, Total, Room;
    RoundedUp(ninodes);
    Create(u, ninodes, junk);
    NewState(u, InodeBlocks(ninodes) * INODES);
    answers, trace := Run(u, ops, NewSizing(InodeBlocks(ninodes) * INODES, |u.disk| - 1 - InodeBlocks(ninodes)));
  }

  lemma NewState(u: UnixDisk, n: nat)
    requires u.Inodes() == n && forall i :: 0 <= i < n ==> u.File(i) == []
    ensures SizingOf(StateOf(u)) == NewSizing(n, u.free)
  {
    assert SizingOf(StateOf(u)).sizes == NewSizing(n, u.free).sizes;
  }

  function NewSizing(n: nat, free: int): (z: Sizing)
    ensures |z.sizes| == n && z.free == free && forall i :: 0 <= i < n ==> z.sizes[i] == 0
  {
    Sizing(if n == 0 then [] else NewSizing(n - 1, free).sizes + [0], free)
  }

  /** With no block free, a write past the end of a file destroys the inodes: here of the file itself, which then
      has no blocks at all. */
  method FullExample(u: UnixDisk, x: Block)
    requires |u.disk| == 3 && u.disk[0][0] == 0
    modifies u
    ensures Size(u.disk, 0) == 0
  {
    hide u.Valid, Contents, Size;
    Create(u, 16, x);
    assert InodeBlocks(16) == 1 && u.Inodes() == 16 && u.free == 1 && |u.File(0)| == 0;
    FirstSlots();
    var ok := u.Write(0, 0, x);
    assert |u.File(0)| == 1 && u.free == 0;
    ok := u.Write(0, 1, Nulls(E));
    assert u.disk[1] == Nulls(E);
    NullSize(u.disk);
  }

  lemma FirstSlots()
    ensures Slots(0) == 0 && Slots(1) == 1 && Slots(2) == 2
  {
  }

  lemma NullSize(v: seq<Block>)
    requires |v| > 1 && v[1] == Nulls(E)
    ensures Size(v, 0) == 0
  {
  }
}
