/** The integrity checker of the tree block store, on arbitrary disks. */
module TreeCheck {
  import opened Radix
  import opened Layout
  import opened TreeSteps
  import opened TreeGrowth
  import opened TreeFree
  import opened TreeWalk
  import opened TreeDisks

  datatype Status = Unknown | SuperBlk | InodeBlk | Indirect | DataBlk | FreeListBlk | FreeBlk

  // ---- where a slot's block is found, by following references on an arbitrary disk ----

  ghost predicate Readable(d: seq<Block>, r: nat) {
    Sized(d, r) && NumInodeBlocks(d) < |d|
  }

  ghost function NodeAt(d: seq<Block>, r: nat, ino: nat, l: nat, idx: nat): nat
    requires Readable(d, r) && ino < NumInodes(d, r)
    decreases Levels(r, Size(d, r, ino)) - l
  {
    if l >= Levels(r, Size(d, r, ino)) then
      if l == Levels(r, Size(d, r, ino)) && idx == 0 then Root(d, r, ino) else 0
    else
      var p := NodeAt(d, r, ino, l + 1, Parent(r, idx));
      if p == 0 || p >= |d| then 0 else d[p][LastDigit(r, idx)]
  }

  /** i-th block of the free list, counted from its head. */
  ghost function ListNode(d: seq<Block>, r: nat, i: nat): nat
    requires Readable(d, r)
  {
    if i == 0 then Top(d) else
      var p := ListNode(d, r, i - 1);
      if p == 0 || p >= |d| then 0 else d[p][0]
  }

  /** Slots count free-list nodes from the head here. References of free-list nodes that
      lead off the disk are not counted as entries. */
  ghost function Where(d: seq<Block>, r: nat, s: Slot): nat
    requires Readable(d, r)
  {
    match s
    case InodeBlock(k) => k
    case Tree(ino, l, idx) => if ino < NumInodes(d, r) then NodeAt(d, r, ino, l, idx) else 0
    case FreeNode(i) => ListNode(d, r, i)
    case FreeEntry(i, j) =>
      var p := ListNode(d, r, i);
      if p == 0 || p >= |d| || j == 0 || j >= r || d[p][j] >= |d| then 0 else d[p][j]
    case _ => 0
  }

  predicate InSize(r: nat, size: nat, l: nat, idx: nat)
    requires r >= 2
  {
    size > 0 && l <= Levels(r, size) && idx <= Up(r, size - 1, l)
  }

  /** The 32-bit offset of a position lies below the file's size. */
  predicate Starts(r: nat, size: nat, l: nat, idx: nat) {
    (idx * Pow(r, l)) % TWO32 < size
  }

  /** The scan of a file comes to this position: it starts with the first reference of every indirect
      block and goes on to the next for as long as the 32-bit offset there lies below the size. */
  ghost predicate Visits(r: nat, size: nat, l: nat, idx: nat)
    requires r >= 2
    decreases Levels(r, size) - l
  {
    if l >= Levels(r, size) then size > 0 && l == Levels(r, size) && idx == 0 else
      && Visits(r, size, l + 1, Parent(r, idx))
      && forall x: nat :: Kid(r, Parent(r, idx), 0) < x <= idx ==> Starts(r, size, l, x)
  }

  /** The slots that hold the fixed blocks, file positions below the file's size, and the free list. */
  ghost predicate Counted(d: seq<Block>, r: nat, s: Slot)
    requires Readable(d, r)
  {
    match s
    case InodeBlock(k) => 1 <= k <= NumInodeBlocks(d)
    case Tree(ino, l, idx) => ino < NumInodes(d, r) && InSize(r, Size(d, r, ino), l, idx)
    case FreeNode(_) => true
    case FreeEntry(_, _) => true
    case _ => false
  }

  /** No block is reached from two slots, no reference of a file or of the list itself leads
      off the disk, and the free list ends. */
  ghost predicate Sound(d: seq<Block>, r: nat) {
    && Readable(d, r)
    && (forall s, t :: Counted(d, r, s) && Counted(d, r, t) && Where(d, r, s) == Where(d, r, t) != 0 ==> s == t)
    && (forall s :: Counted(d, r, s) ==> Where(d, r, s) < |d|)
    && (exists i: nat :: ListNode(d, r, i) == 0)
  }

  /** The slots the checker comes to. */
  ghost predicate Reached(d: seq<Block>, r: nat, s: Slot)
    requires Readable(d, r)
  {
    if s.Tree? then s.ino < NumInodes(d, r) && Visits(r, Size(d, r, s.ino), s.level, s.idx) else Counted(d, r, s)
  }

  /** The same as Sound, for the slots the checker comes to. */
  ghost predicate Accepted(d: seq<Block>, r: nat) {
    && Readable(d, r)
    && (forall s, t :: Reached(d, r, s) && Reached(d, r, t) && Where(d, r, s) == Where(d, r, t) != 0 ==> s == t)
    && (forall s :: Reached(d, r, s) ==> Where(d, r, s) < |d|)
    && (exists i: nat :: ListNode(d, r, i) == 0)
  }

  // ---- claims: the slot on whose behalf a block was marked ----

  type Claims = map<nat, Slot>

  ghost predicate Agree(binfo: seq<Status>, c: Claims) {
    && (forall b :: 0 <= b < |binfo| ==> (binfo[b].Unknown? <==> b !in c))
    && (forall b :: b in c ==> b < |binfo|)
  }

  ghost predicate Extends(c: Claims, c': Claims) {
    forall b :: b in c ==> b in c' && c'[b] == c[b]
  }

  ghost predicate Claimed(d: seq<Block>, r: nat, c: Claims, s: Slot)
    requires Readable(d, r)
  {
    var b := Where(d, r, s);
    b != 0 ==> b < |d| && b in c && c[b] == s
  }

  lemma ClaimedStays(d: seq<Block>, r: nat, c: Claims, c': Claims, s: Slot)
    requires Readable(d, r) && Claimed(d, r, c, s) && Extends(c, c')
    ensures Claimed(d, r, c', s)
  {
  }

  /** All positions the scan comes to in a subtree have been claimed. */
  ghost predicate Covered(d: seq<Block>, r: nat, c: Claims, ino: nat, size: nat, l: nat, idx: nat)
    requires Readable(d, r)
  {
    forall k: nat, x: nat :: InSubtree(r, Tree(ino, k, x), ino, l, idx) && Visits(r, size, k, x) ==> Claimed(d, r, c, Tree(ino, k, x))
  }

  ghost predicate CoveredKids(d: seq<Block>, r: nat, c: Claims, ino: nat, size: nat, l: nat, idx: nat, i: nat)
    requires Readable(d, r)
  {
    forall k: nat, x: nat :: InKids(r, Tree(ino, k, x), ino, l, idx, i) && Visits(r, size, k, x) ==> Claimed(d, r, c, Tree(ino, k, x))
  }

  /** New claims are made for slots in the subtree only. */
  ghost predicate NewUnder(c: Claims, c': Claims, r: nat, ino: nat, l: nat, idx: nat)
    requires r >= 2
  {
    forall b :: b in c' && b !in c ==> InSubtree(r, c'[b], ino, l, idx)
  }

  ghost predicate NewKids(c: Claims, c': Claims, r: nat, ino: nat, l: nat, idx: nat, i: nat)
    requires r >= 2
  {
    forall b :: b in c' && b !in c ==> c'[b] == Tree(ino, l, idx) || InKids(r, c'[b], ino, l, idx, i)
  }

  // ---- what is accepted ----

  /** Block b was marked for the slot that leads to it. */
  ghost predicate ClaimTrue(d: seq<Block>, r: nat, c: Claims, b: nat)
    requires Readable(d, r)
  {
    b in c ==> if b == 0 then c[b] == Super else Reached(d, r, c[b]) && Where(d, r, c[b]) == b
  }

  ghost predicate ClaimsTrue(d: seq<Block>, r: nat, c: Claims)
    requires Readable(d, r)
  {
    forall b: nat :: ClaimTrue(d, r, c, b)
  }

  /** On an accepted disk, the block of a slot not visited yet is unmarked. */
  lemma SlotUnclaimed(d: seq<Block>, r: nat, c: Claims, s: Slot)
    requires Accepted(d, r) && ClaimsTrue(d, r, c) && Reached(d, r, s) && Where(d, r, s) != 0
    requires forall b :: b in c ==> c[b] != s
    ensures Where(d, r, s) < |d| && Where(d, r, s) !in c
    ensures ClaimsTrue(d, r, c[Where(d, r, s) := s])
  {
    hide Where, Reached;
    assert ClaimTrue(d, r, c, Where(d, r, s));
    var c' := c[Where(d, r, s) := s];
    forall b: nat ensures ClaimTrue(d, r, c', b) {
      assert ClaimTrue(d, r, c, b);
    }
  }

  /** good: the disk is to be accepted, node is where the subtree hangs, and nothing in it is marked. */
  ghost predicate GoodTree(good: bool, d: seq<Block>, r: nat, c: Claims, ino: nat, l: nat, idx: nat, node: nat) {
    good ==>
      && Accepted(d, r) && ino < NumInodes(d, r) && Visits(r, Size(d, r, ino), l, idx)
      && ClaimsTrue(d, r, c) && node == NodeAt(d, r, ino, l, idx)
      && (forall b :: b in c ==> !InSubtree(r, c[b], ino, l, idx))
  }

  lemma GoodUnclaimed(d: seq<Block>, r: nat, c: Claims, ino: nat, l: nat, idx: nat, node: nat)
    requires GoodTree(true, d, r, c, ino, l, idx, node) && node != 0
    ensures node < |d| && node !in c && ClaimsTrue(d, r, c[node := Tree(ino, l, idx)])
  {
    hide Accepted, ClaimsTrue, NodeAt, InSubtree, Visits;
    NotItself(r, c, ino, l, idx);
    SlotUnclaimed(d, r, c, Tree(ino, l, idx));
  }

  lemma NotItself(r: nat, c: Claims, ino: nat, l: nat, idx: nat)
    requires r >= 2 && forall b :: b in c ==> !InSubtree(r, c[b], ino, l, idx)
    ensures forall b :: b in c ==> c[b] != Tree(ino, l, idx)
  {
    UpZero(r, idx);
  }

  lemma GoodChild(d: seq<Block>, r: nat, c0: Claims, c: Claims, ino: nat, l: nat, idx: nat, node: nat, i: nat)
    requires GoodTree(true, d, r, c0, ino, l, idx, node) && node != 0 && l > 0 && i < r && node < |d|
    requires NewKids(c0, c, r, ino, l, idx, i) && Extends(c0, c) && ClaimsTrue(d, r, c)
    requires Visits(r, Size(d, r, ino), l - 1, Kid(r, idx, i))
    ensures GoodTree(true, d, r, c, ino, l - 1, Kid(r, idx, i), d[node][i])
  {
    hide ClaimsTrue, Pow, NodeAt, InSubtree, NewKids, Visits;
    VisitsLevel(r, Size(d, r, ino), l, idx);
    ChildAt(d, r, ino, l, idx, node, i);
    KidUnclaimed(r, c0, c, ino, l, idx, i);
  }

  lemma VisitsLevel(r: nat, size: nat, l: nat, idx: nat)
    requires r >= 2 && Visits(r, size, l, idx)
    ensures l <= Levels(r, size)
  {
  }

  lemma KidUnclaimed(r: nat, c0: Claims, c: Claims, ino: nat, l: nat, idx: nat, i: nat)
    requires r >= 2 && l > 0 && i < r && NewKids(c0, c, r, ino, l, idx, i) && Extends(c0, c)
    requires forall b :: b in c0 ==> !InSubtree(r, c0[b], ino, l, idx)
    ensures forall b :: b in c ==> !InSubtree(r, c[b], ino, l - 1, Kid(r, idx, i))
  {
    hide Kid, Up;
    forall b | b in c ensures !InSubtree(r, c[b], ino, l - 1, Kid(r, idx, i)) {
      NextKid(r, c[b], ino, l, idx, i);
      AllKids(r, c[b], ino, l, idx);
      if b in c0 {
        assert c[b] == c0[b];
        if InSubtree(r, c[b], ino, l - 1, Kid(r, idx, i)) { NextWithin(r, c[b], ino, l, idx, i); }
      }
    }
  }

  lemma NextWithin(r: nat, s: Slot, ino: nat, l: nat, idx: nat, i: nat)
    requires r >= 2 && l > 0 && i < r && InSubtree(r, s, ino, l - 1, Kid(r, idx, i))
    ensures InSubtree(r, s, ino, l, idx)
  {
    KidDigits(r, idx, i);
    AllKids(r, s, ino, l, idx);
  }

  // ---- ranges ----

  /** The scan comes to what lies above a position it comes to. */
  lemma {:induction false} VisitsAbove(r: nat, size: nat, l: nat, idx: nat, n: nat)
    requires r >= 2 && Visits(r, size, l, idx) && l + n <= Levels(r, size)
    ensures Visits(r, size, l + n, Up(r, idx, n))
  {
    if n == 0 {
      UpZero(r, idx);
    } else {
      VisitsAbove(r, size, l, idx, n - 1);
      UpStep(r, idx, n - 1);
    }
  }

  /** Where the scan of an indirect block stops, it comes to nothing under this and later children. */
  lemma BeyondEnd(r: nat, size: Word, ino: nat, l: nat, idx: nat, i: nat, k: nat, x: nat)
    requires r >= 2 && 0 < l <= Levels(r, size) && i > 0
    requires !Starts(r, size, l - 1, Kid(r, idx, i))
    requires InKids(r, Tree(ino, k, x), ino, l, idx, r) && !InKids(r, Tree(ino, k, x), ino, l, idx, i)
    ensures !Visits(r, size, k, x)
  {
    hide Starts;
    if Visits(r, size, k, x) {
      VisitsAbove(r, size, k, x, l - 1 - k);
      KidOfDigits(r, Up(r, x, l - 1 - k));
    }
  }

  lemma UpTimes(r: nat, x: nat, l: nat)
    requires r >= 2
    ensures Pow(r, l) * Up(r, x, l) <= x
  {
    PowPositive(r, l);
    assert x == Pow(r, l) * (x / Pow(r, l)) + x % Pow(r, l);
  }

  /** After a scan stopped early, all remaining children are beyond the end. */
  lemma RestBeyond(d: seq<Block>, r: nat, c: Claims, ino: nat, size: Word, l: nat, idx: nat, i: nat)
    requires Readable(d, r) && 0 < l <= Levels(r, size) && i > 0
    requires !Starts(r, size, l - 1, Kid(r, idx, i))
    requires CoveredKids(d, r, c, ino, size, l, idx, i)
    ensures CoveredKids(d, r, c, ino, size, l, idx, r)
  {
    forall k: nat, x: nat | InKids(r, Tree(ino, k, x), ino, l, idx, r) && Visits(r, size, k, x)
      ensures Claimed(d, r, c, Tree(ino, k, x))
    {
      if !InKids(r, Tree(ino, k, x), ino, l, idx, i) {
        BeyondEnd(r, size, ino, l, idx, i, k, x);
      }
    }
  }

  lemma CoverNext(d: seq<Block>, r: nat, c: Claims, c': Claims, ino: nat, size: nat, l: nat, idx: nat, i: nat)
    requires Readable(d, r) && l > 0 && i < r && Extends(c, c')
    requires CoveredKids(d, r, c, ino, size, l, idx, i) && Covered(d, r, c', ino, size, l - 1, Kid(r, idx, i))
    ensures CoveredKids(d, r, c', ino, size, l, idx, i + 1)
  {
    forall k: nat, x: nat | InKids(r, Tree(ino, k, x), ino, l, idx, i + 1) && Visits(r, size, k, x)
      ensures Claimed(d, r, c', Tree(ino, k, x))
    {
      NextKid(r, Tree(ino, k, x), ino, l, idx, i);
      if InKids(r, Tree(ino, k, x), ino, l, idx, i) {
        ClaimedStays(d, r, c, c', Tree(ino, k, x));
      }
    }
  }

  lemma CoverAll(d: seq<Block>, r: nat, c: Claims, ino: nat, size: nat, l: nat, idx: nat)
    requires Readable(d, r) && CoveredKids(d, r, c, ino, size, l, idx, r) && Claimed(d, r, c, Tree(ino, l, idx))
    ensures Covered(d, r, c, ino, size, l, idx)
  {
    forall k: nat, x: nat | InSubtree(r, Tree(ino, k, x), ino, l, idx) && Visits(r, size, k, x)
      ensures Claimed(d, r, c, Tree(ino, k, x))
    {
      AllKids(r, Tree(ino, k, x), ino, l, idx);
    }
  }

  /** Below a hole there are only holes. */
  lemma {:induction false} HoleBelow(d: seq<Block>, r: nat, ino: nat, l: nat, k: nat, x: nat)
    requires Readable(d, r) && ino < NumInodes(d, r) && k <= l <= Levels(r, Size(d, r, ino))
    requires NodeAt(d, r, ino, l, Up(r, x, l - k)) == 0
    ensures NodeAt(d, r, ino, k, x) == 0
    decreases l - k
  {
    UpZero(r, x);
    if k < l {
      UpOneLess(r, x, l - k);
      HoleBelow(d, r, ino, l, k + 1, Parent(r, x));
    }
  }

  lemma CoverHole(d: seq<Block>, r: nat, c: Claims, ino: nat, l: nat, idx: nat)
    requires Readable(d, r) && ino < NumInodes(d, r) && l <= Levels(r, Size(d, r, ino))
    requires NodeAt(d, r, ino, l, idx) == 0
    ensures Covered(d, r, c, ino, Size(d, r, ino), l, idx)
  {
    forall k: nat, x: nat | InSubtree(r, Tree(ino, k, x), ino, l, idx) && Visits(r, Size(d, r, ino), k, x)
      ensures Claimed(d, r, c, Tree(ino, k, x))
    {
      HoleBelow(d, r, ino, l, k, x);
    }
  }

  lemma NewKidsNext(c0: Claims, c: Claims, c': Claims, r: nat, ino: nat, l: nat, idx: nat, i: nat)
    requires r >= 2 && l > 0 && i < r && NewKids(c0, c, r, ino, l, idx, i) && Extends(c, c')
    requires NewUnder(c, c', r, ino, l - 1, Kid(r, idx, i))
    ensures NewKids(c0, c', r, ino, l, idx, i + 1)
  {
    forall b | b in c' && b !in c0 ensures c'[b] == Tree(ino, l, idx) || InKids(r, c'[b], ino, l, idx, i + 1) {
      NextKid(r, c'[b], ino, l, idx, i);
      if b in c { assert c'[b] == c[b]; }
    }
  }

  lemma NewKidsUnder(c0: Claims, c: Claims, r: nat, ino: nat, l: nat, idx: nat, i: nat)
    requires r >= 2 && NewKids(c0, c, r, ino, l, idx, i) && i <= r
    ensures NewUnder(c0, c, r, ino, l, idx)
  {
    forall b | b in c && b !in c0 ensures InSubtree(r, c[b], ino, l, idx) {
      AllKids(r, c[b], ino, l, idx);
    }
  }

  lemma LeafCovered(d: seq<Block>, r: nat, c: Claims, ino: nat, size: nat, idx: nat)
    requires Readable(d, r) && Claimed(d, r, c, Tree(ino, 0, idx))
    ensures Covered(d, r, c, ino, size, 0, idx)
  {
    CoverAll(d, r, c, ino, size, 0, idx);
  }

  /** 32-bit offsets: the wrapped start of the next child. */
  lemma NextOffset(r: nat, l: nat, idx: nat, i: nat, size: nat)
    requires size == Pow(r, l)
    ensures ((Kid(r, idx, i) * size) % TWO32 + size) % TWO32 == (Kid(r, idx, i + 1) * size) % TWO32
  {
    var a := Kid(r, idx, i) * size;
    assert Kid(r, idx, i + 1) * size == a + size by {
      assert Kid(r, idx, i + 1) == Kid(r, idx, i) + 1;
    }
    ModAdd(a, size, TWO32);
  }

  lemma ModAdd(a: nat, b: nat, m: nat)
    requires m > 0
    ensures (a % m + b) % m == (a + b) % m
  {
    var q := a / m;
    assert a == m * q + a % m;
    var x := a % m + b;
    assert x == m * (x / m) + x % m;
    assert a + b == m * (q + x / m) + x % m;
    QuotientUnique(a + b, m, q + x / m, x % m);
  }

  lemma FirstOffset(r: nat, l: nat, idx: nat)
    requires l > 0
    ensures idx * Pow(r, l) == Kid(r, idx, 0) * Pow(r, l - 1)
  {
    assert Pow(r, l) == r * Pow(r, l - 1);
    assert idx * (r * Pow(r, l - 1)) == (idx * r) * Pow(r, l - 1);
  }

  /** The subtree size fits in 32 bits, so that the shift that computes it is defined. */
  lemma SubtreeFits(k: nat, size: Word, l: nat)
    requires 1 <= k < 32 && Pow(2, k) >= 2 && size > 0 && 0 < l <= Levels(Pow(2, k), size)
    ensures 0 <= (l - 1) * k < 32
    ensures Pow(2, (l - 1) * k) == Pow(Pow(2, k), l - 1) < TWO32
  {
    hide Pow, Up, Digits;
    var r := Pow(2, k);
    DigitsExact(r, size - 1, l - 1);
    UpTimes(r, size - 1, l - 1);
    OneFactor(Pow(r, l - 1), Up(r, size - 1, l - 1), size - 1);
    PowPow(2, k, l - 1);
    Pow2Of32();
    var shift := Product(l - 1, k);
    if shift >= 32 { PowMonotone(2, 32, shift); }
  }

  lemma OneFactor(p: nat, u: nat, x: nat)
    requires p * u <= x && u >= 1
    ensures p <= x
  {
    MulMonotone(p, 1, u);
  }

  function Product(a: nat, b: nat): (c: nat)
    ensures c == a * b
  {
    MulMonotone(a, 0, b);
    a * b
  }

  // ---- the scan of one file ----

  ghost predicate Scanned(d: seq<Block>, r: nat, c: Claims, c': Claims, ino: nat, size: nat, l: nat, idx: nat)
    requires Readable(d, r)
  {
    Extends(c, c') && NewUnder(c, c', r, ino, l, idx) && Covered(d, r, c', ino, size, l, idx)
  }

  /** State of a scan after the first i references of an indirect block. */
  ghost predicate Scanning(d: seq<Block>, r: nat, c: Claims, c': Claims, ino: nat, size: nat, l: nat, idx: nat, i: nat)
    requires Readable(d, r)
  {
    && Extends(c, c') && NewKids(c, c', r, ino, l, idx, i)
    && CoveredKids(d, r, c', ino, size, l, idx, i)
    && Claimed(d, r, c', Tree(ino, l, idx))
  }

  lemma ScanStart(d: seq<Block>, r: nat, c: Claims, ino: nat, size: nat, l: nat, idx: nat, node: nat)
    requires Readable(d, r) && ino < NumInodes(d, r) && node == NodeAt(d, r, ino, l, idx) && 0 < node < |d|
    requires node !in c
    ensures Scanning(d, r, c, c[node := Tree(ino, l, idx)], ino, size, l, idx, 0)
  {
  }

  lemma ScanNext(d: seq<Block>, r: nat, c0: Claims, c: Claims, c': Claims, ino: nat, size: nat, l: nat, idx: nat,
          i: nat)
    requires Readable(d, r) && l > 0 && i < r && Scanning(d, r, c0, c, ino, size, l, idx, i)
    requires Scanned(d, r, c, c', ino, size, l - 1, Kid(r, idx, i))
    ensures Scanning(d, r, c0, c', ino, size, l, idx, i + 1)
  {
    NewKidsNext(c0, c, c', r, ino, l, idx, i);
    CoverNext(d, r, c, c', ino, size, l, idx, i);
    ClaimedStays(d, r, c, c', Tree(ino, l, idx));
  }

  lemma ScanEnd(d: seq<Block>, r: nat, c0: Claims, c: Claims, ino: nat, size: Word, l: nat, idx: nat, i: nat)
    requires Readable(d, r) && Scanning(d, r, c0, c, ino, size, l, idx, i) && i <= r && size > 0
    requires i == r || (0 < l <= Levels(r, size) && i > 0 && !Starts(r, size, l - 1, Kid(r, idx, i)))
    ensures Scanned(d, r, c0, c, ino, size, l, idx)
  {
    if i < r { RestBeyond(d, r, c, ino, size, l, idx, i); }
    NewKidsUnder(c0, c, r, ino, l, idx, i);
    CoverAll(d, r, c, ino, size, l, idx);
  }

  lemma ChildAt(d: seq<Block>, r: nat, ino: nat, l: nat, idx: nat, node: nat, i: nat)
    requires Readable(d, r) && ino < NumInodes(d, r) && 0 < l <= Levels(r, Size(d, r, ino)) && i < r
    requires node == NodeAt(d, r, ino, l, idx) && 0 < node < |d|
    ensures d[node][i] == NodeAt(d, r, ino, l - 1, Kid(r, idx, i))
  {
    KidDigits(r, idx, i);
  }

  ghost predicate TrueClaims(good: bool, d: seq<Block>, r: nat, c: Claims)
    requires Readable(d, r)
  {
    good ==> ClaimsTrue(d, r, c)
  }

  lemma MarkAgrees(binfo: seq<Status>, c: Claims, b: nat, status: Status, s: Slot)
    requires Agree(binfo, c) && b < |binfo| && !status.Unknown?
    ensures Agree(binfo[b := status], c[b := s])
  {
  }

  lemma MarkTrue(good: bool, d: seq<Block>, r: nat, c: Claims, ino: nat, l: nat, idx: nat, node: nat)
    requires Readable(d, r) && GoodTree(good, d, r, c, ino, l, idx, node) && node != 0
    ensures good ==> node < |d| && node !in c
    ensures TrueClaims(good, d, r, c[node := Tree(ino, l, idx)])
  {
    if good { GoodUnclaimed(d, r, c, ino, l, idx, node); }
  }

  lemma GoodChildIf(good: bool, d: seq<Block>, r: nat, c0: Claims, c: Claims, ino: nat, size: nat, l: nat, idx: nat,
          node: nat, i: nat)
    requires Readable(d, r) && GoodTree(good, d, r, c0, ino, l, idx, node)
    requires 0 < node < |d| && l > 0 && i < r && ino < NumInodes(d, r) && size == Size(d, r, ino)
    requires Scanning(d, r, c0, c, ino, size, l, idx, i) && TrueClaims(good, d, r, c)
    requires Visits(r, size, l - 1, Kid(r, idx, i))
    ensures GoodTree(good, d, r, c, ino, l - 1, Kid(r, idx, i), d[node][i])
  {
    if good { GoodChild(d, r, c0, c, ino, l, idx, node, i); }
  }

  /** The first child is visited with its parent, and the next after each if it starts below the size. */
  lemma VisitsKid(r: nat, size: nat, l: nat, idx: nat, i: nat)
    requires r >= 2 && l > 0 && i < r && Visits(r, size, l, idx)
    requires i > 0 ==> Visits(r, size, l - 1, Kid(r, idx, i - 1)) && Starts(r, size, l - 1, Kid(r, idx, i))
    ensures Visits(r, size, l - 1, Kid(r, idx, i))
  {
    hide Starts, Levels;
    KidDigits(r, idx, i);
    if i > 0 { KidDigits(r, idx, i - 1); }
  }

  /** Marks the blocks of one subtree of a file; fails on a reference off the disk or to a
      block that is marked already. */
  method CheckInode(below: BlockStore, r: nat, logRpb: nat, nblocks: Word, node: Word, nlevels: nat, offset: Word,
          fsNblocks: nat, binfo: array<Status>, ghost ino: nat, ghost idx: nat, ghost c: Claims, ghost good: bool)
    returns (ok: bool, ghost c': Claims)
    requires Readable(below.blocks, r) && 1 <= logRpb < 32 && r == Pow(2, logRpb)
    requires fsNblocks == |below.blocks| == binfo.Length
    requires ino < NumInodes(below.blocks, r) && nblocks == Size(below.blocks, r, ino) > 0
    requires Visits(r, nblocks, nlevels, idx) && node == NodeAt(below.blocks, r, ino, nlevels, idx)
    requires offset == (idx * Pow(r, nlevels)) % TWO32
    requires Agree(binfo[..], c) && GoodTree(good, below.blocks, r, c, ino, nlevels, idx, node)
    modifies binfo
    ensures ok ==> Agree(binfo[..], c') && Scanned(below.blocks, r, c, c', ino, nblocks, nlevels, idx)
    ensures (good ==> ok) && TrueClaims(good, below.blocks, r, c')
    decreases nlevels
  {
    hide Covered, CoveredKids, NewKids, NewUnder, TrueClaims, Visits, Accepted, Scanned, Scanning, GoodTree, InSubtree,
         Extends, Agree, Pow, Claimed;
    c' := c;
    ghost var d := below.blocks;
    VisitsLevel(r, nblocks, nlevels, idx);
    if node == 0 {
      ScanHole(d, r, c, ino, nlevels, idx);
      GoodIsTrue(good, d, r, c, ino, nlevels, idx, node);
      return true, c;
    }
    GoodIsTrue(good, d, r, c, ino, nlevels, idx, node);
    MarkTrue(good, d, r, c, ino, nlevels, idx, node);
    if node >= fsNblocks {
      return false, c;
    }
    AgreeAt(binfo[..], c, node);
    if binfo[node] != Unknown {
      return false, c;
    }
    ScanStart(d, r, c, ino, nblocks, nlevels, idx, node);
    c' := c[node := Tree(ino, nlevels, idx)];
    if nlevels == 0 {
      MarkAgrees(binfo[..], c, node, DataBlk, Tree(ino, nlevels, idx));
      ghost var was := binfo[..];
      binfo[node] := DataBlk;
      assert binfo[..] == was[node := DataBlk];
      ScanLeaf(d, r, c, c', ino, nblocks, idx);
      return true, c';
    }
    MarkAgrees(binfo[..], c, node, Indirect, Tree(ino, nlevels, idx));
    ghost var was := binfo[..];
    binfo[node] := Indirect;
    assert binfo[..] == was[node := Indirect];
    var ib := below.Read(node);
    SubtreeFits(logRpb, nblocks, nlevels);
    var size: Word := Pow(2, (nlevels - 1) * logRpb);  // 1 << (nlevels * log_rpb)
    FirstOffset(r, nlevels, idx);
    var i, off: Word := 0, offset;
    VisitsKid(r, nblocks, nlevels, idx, 0);
    while i < r
      invariant i <= r && off == (Kid(r, idx, i) * size) % TWO32
      invariant Agree(binfo[..], c')
      invariant Scanning(d, r, c, c', ino, nblocks, nlevels, idx, i)
      invariant TrueClaims(good, d, r, c') && (i < r ==> Visits(r, nblocks, nlevels - 1, Kid(r, idx, i)))
    {
      ChildAt(d, r, ino, nlevels, idx, node, i);
      GoodChildIf(good, d, r, c, c', ino, nblocks, nlevels, idx, node, i);
      ghost var before := c';
      ok, c' := CheckInode(below, r, logRpb, nblocks, ib[i], nlevels - 1, off, fsNblocks, binfo, ino, Kid(r, idx, i), c', good);
      if !ok {
        return false, c';
      }
      ScanNext(d, r, c, before, c', ino, nblocks, nlevels, idx, i);
      NextOffset(r, nlevels - 1, idx, i, size);
      off := (off + size) % TWO32;
      i := i + 1;
      if off >= nblocks {
        ScanEnd(d, r, c, c', ino, nblocks, nlevels, idx, i);
        return true, c';
      }
      if i < r { VisitsKid(r, nblocks, nlevels, idx, i); }
    }
    ScanEnd(d, r, c, c', ino, nblocks, nlevels, idx, i);
    ok := true;
  }

  lemma AgreeAt(binfo: seq<Status>, c: Claims, b: nat)
    requires Agree(binfo, c) && b < |binfo|
    ensures binfo[b].Unknown? <==> b !in c
  {
  }

  lemma ScanHole(d: seq<Block>, r: nat, c: Claims, ino: nat, l: nat, idx: nat)
    requires Readable(d, r) && ino < NumInodes(d, r) && l <= Levels(r, Size(d, r, ino))
    requires NodeAt(d, r, ino, l, idx) == 0
    ensures Scanned(d, r, c, c, ino, Size(d, r, ino), l, idx)
  {
    CoverHole(d, r, c, ino, l, idx);
  }

  lemma ScanLeaf(d: seq<Block>, r: nat, c: Claims, c': Claims, ino: nat, size: nat, idx: nat)
    requires Readable(d, r) && Scanning(d, r, c, c', ino, size, 0, idx, 0)
    ensures Scanned(d, r, c, c', ino, size, 0, idx)
  {
    LeafCovered(d, r, c', ino, size, idx);
    NewKidsUnder(c, c', r, ino, 0, idx, 0);
  }

  lemma GoodIsTrue(good: bool, d: seq<Block>, r: nat, c: Claims, ino: nat, l: nat, idx: nat, node: nat)
    requires Readable(d, r) && GoodTree(good, d, r, c, ino, l, idx, node)
    ensures TrueClaims(good, d, r, c)
  {
  }

  // ---- the whole check ----

  ghost predicate FileCovered(d: seq<Block>, r: nat, c: Claims, ino: nat)
    requires Readable(d, r) && ino < NumInodes(d, r)
  {
    Covered(d, r, c, ino, Size(d, r, ino), Levels(r, Size(d, r, ino)), 0)
  }

  /** The fixed blocks and the first upto files have been claimed. */
  ghost predicate FilesDone(d: seq<Block>, r: nat, c: Claims, upto: nat)
    requires Readable(d, r) && upto <= NumInodes(d, r)
  {
    && 0 in c && c[0] == Super
    && (forall k :: 1 <= k <= NumInodeBlocks(d) ==> k in c && c[k] == InodeBlock(k))
    && (forall ino: nat :: ino < upto ==> FileCovered(d, r, c, ino))
  }

  /** For a good disk: claims are true, and made in order. */
  ghost predicate GoodFiles(good: bool, d: seq<Block>, r: nat, c: Claims, upto: nat) {
    good ==>
      && Accepted(d, r) && ClaimsTrue(d, r, c)
      && forall b :: b in c ==> !c[b].FreeNode? && !c[b].FreeEntry? && (c[b].Tree? ==> c[b].ino < upto)
  }

  lemma FilesKept(d: seq<Block>, r: nat, c: Claims, c': Claims, upto: nat)
    requires Readable(d, r) && upto <= NumInodes(d, r) && FilesDone(d, r, c, upto) && Extends(c, c')
    ensures FilesDone(d, r, c', upto)
  {
    forall ino: nat | ino < upto ensures FileCovered(d, r, c', ino) {
      assert FileCovered(d, r, c, ino);
      CoveredKept(d, r, c, c', ino, Size(d, r, ino), Levels(r, Size(d, r, ino)), 0);
    }
  }

  lemma CoveredKept(d: seq<Block>, r: nat, c: Claims, c': Claims, ino: nat, size: nat, l: nat, idx: nat)
    requires Readable(d, r) && Covered(d, r, c, ino, size, l, idx) && Extends(c, c')
    ensures Covered(d, r, c', ino, size, l, idx)
  {
    forall k: nat, x: nat | InSubtree(r, Tree(ino, k, x), ino, l, idx) && Visits(r, size, k, x)
      ensures Claimed(d, r, c', Tree(ino, k, x))
    {
      ClaimedStays(d, r, c, c', Tree(ino, k, x));
    }
  }

  lemma NextFile(d: seq<Block>, r: nat, c: Claims, c': Claims, upto: nat)
    requires Readable(d, r) && upto < NumInodes(d, r) && FilesDone(d, r, c, upto)
    requires Scanned(d, r, c, c', upto, Size(d, r, upto), Levels(r, Size(d, r, upto)), 0)
    ensures FilesDone(d, r, c', upto + 1)
  {
    FilesKept(d, r, c, c', upto);
  }

  lemma EmptyNextFile(d: seq<Block>, r: nat, c: Claims, upto: nat)
    requires Readable(d, r) && upto < NumInodes(d, r) && FilesDone(d, r, c, upto) && Size(d, r, upto) == 0
    ensures FilesDone(d, r, c, upto + 1)
  {
  }

  lemma GoodFile(good: bool, d: seq<Block>, r: nat, c: Claims, upto: nat)
    requires GoodFiles(good, d, r, c, upto) && Readable(d, r) && upto < NumInodes(d, r)
    requires Size(d, r, upto) > 0
    ensures GoodTree(good, d, r, c, upto, Levels(r, Size(d, r, upto)), 0, Root(d, r, upto))
  {
    hide Accepted, ClaimsTrue;
  }

  lemma GoodNextFile(good: bool, d: seq<Block>, r: nat, c: Claims, c': Claims, upto: nat, l: nat)
    requires GoodFiles(good, d, r, c, upto) && Readable(d, r)
    requires Extends(c, c') && NewUnder(c, c', r, upto, l, 0) && TrueClaims(good, d, r, c')
    ensures GoodFiles(good, d, r, c', upto + 1)
  {
    if good {
      forall b | b in c' ensures !c'[b].FreeNode? && !c'[b].FreeEntry? && (c'[b].Tree? ==> c'[b].ino < upto + 1) {
        if b in c { assert c'[b] == c[b]; }
      }
    }
  }

  /** The first i nodes of the free list and their entries have been claimed. */
  ghost predicate ListDone(d: seq<Block>, r: nat, c: Claims, i: nat)
    requires Readable(d, r)
  {
    forall k: nat :: k < i ==> Claimed(d, r, c, FreeNode(k)) && EntriesDone(d, r, c, k, r)
  }

  /** Entries 1 .. j-1 of node k have been claimed. */
  ghost predicate EntriesDone(d: seq<Block>, r: nat, c: Claims, k: nat, j: nat)
    requires Readable(d, r)
  {
    forall x: nat :: 1 <= x < j ==> Claimed(d, r, c, FreeEntry(k, x))
  }

  /** For a good disk: fl is node i, and nothing from it on is claimed. */
  ghost predicate GoodList(good: bool, d: seq<Block>, r: nat, c: Claims, i: nat) {
    good ==>
      && Accepted(d, r) && ClaimsTrue(d, r, c)
      && forall b :: b in c ==> !(c[b].FreeNode? && c[b].i >= i) && !(c[b].FreeEntry? && c[b].i >= i)
  }

  /** The same after node i and its entries below j. */
  ghost predicate GoodEntries(good: bool, d: seq<Block>, r: nat, c: Claims, i: nat, j: nat) {
    good ==>
      && Accepted(d, r) && ClaimsTrue(d, r, c)
      && forall b :: b in c ==> !(c[b].FreeNode? && c[b].i > i) && !(c[b].FreeEntry? && (c[b].i > i || (c[b].i == i && c[b].j >= j)))
  }

  lemma ClaimNode(good: bool, d: seq<Block>, r: nat, c: Claims, i: nat, fl: nat)
    requires Readable(d, r) && GoodList(good, d, r, c, i) && fl == ListNode(d, r, i) != 0
    ensures good ==> fl < |d| && fl !in c
    ensures GoodEntries(good, d, r, c[fl := FreeNode(i)], i, 1)
  {
    if good { SlotUnclaimed(d, r, c, FreeNode(i)); }
  }

  lemma ClaimEntry(good: bool, d: seq<Block>, r: nat, c: Claims, i: nat, j: nat, fl: nat)
    requires Readable(d, r) && GoodEntries(good, d, r, c, i, j) && 0 < fl == ListNode(d, r, i) < |d| && 1 <= j < r
    ensures d[fl][j] == 0 || d[fl][j] >= |d| ==> GoodEntries(good, d, r, c, i, j + 1)
    ensures 0 < d[fl][j] < |d| ==> GoodEntries(good, d, r, c[d[fl][j] as nat := FreeEntry(i, j)], i, j + 1)
    ensures good && 0 < d[fl][j] < |d| ==> d[fl][j] !in c
  {
    if good && 0 < d[fl][j] < |d| { SlotUnclaimed(d, r, c, FreeEntry(i, j)); }
  }

  lemma EntriesEnd(good: bool, d: seq<Block>, r: nat, c: Claims, i: nat)
    requires GoodEntries(good, d, r, c, i, r) && Readable(d, r)
    ensures GoodList(good, d, r, c, i + 1)
  {
    if good {
      forall b | b in c ensures !(c[b].FreeNode? && c[b].i >= i + 1) && !(c[b].FreeEntry? && c[b].i >= i + 1) {
        assert ClaimTrue(d, r, c, b);
      }
    }
  }

  lemma ListKept(d: seq<Block>, r: nat, c: Claims, c': Claims, i: nat, j: nat)
    requires Readable(d, r) && Extends(c, c')
    ensures ListDone(d, r, c, i) ==> ListDone(d, r, c', i)
    ensures EntriesDone(d, r, c, i, j) ==> EntriesDone(d, r, c', i, j)
  {
    forall x: nat | 1 <= x < j && EntriesDone(d, r, c, i, j) ensures Claimed(d, r, c', FreeEntry(i, x)) {
      ClaimedStays(d, r, c, c', FreeEntry(i, x));
    }
    forall k: nat | k < i && ListDone(d, r, c, i) ensures Claimed(d, r, c', FreeNode(k)) && EntriesDone(d, r, c', k, r) {
      ClaimedStays(d, r, c, c', FreeNode(k));
      forall x: nat | 1 <= x < r ensures Claimed(d, r, c', FreeEntry(k, x)) {
        ClaimedStays(d, r, c, c', FreeEntry(k, x));
      }
    }
  }

  /** Once the list has ended there are no more nodes. */
  lemma {:induction false} ListStaysEnded(d: seq<Block>, r: nat, i: nat, k: nat)
    requires Readable(d, r) && ListNode(d, r, i) == 0 && i <= k
    ensures ListNode(d, r, k) == 0
    decreases k
  {
    if i < k { ListStaysEnded(d, r, i, k - 1); }
  }

  /** If every slot reached has its claim, no block is reached twice. */
  lemma AllClaimed(d: seq<Block>, r: nat, c: Claims, n: nat)
    requires Readable(d, r) && FilesDone(d, r, c, NumInodes(d, r)) && ListDone(d, r, c, n) && ListNode(d, r, n) == 0
    ensures Accepted(d, r)
  {
    forall s | Reached(d, r, s) ensures Claimed(d, r, c, s) {
      match s
      case InodeBlock(k) =>
      case Tree(ino, l, idx) =>
        assert FileCovered(d, r, c, ino);
        VisitsAbove(r, Size(d, r, ino), l, idx, Levels(r, Size(d, r, ino)) - l);
      case FreeNode(i) =>
        if i >= n { ListStaysEnded(d, r, n, i); }
      case FreeEntry(i, j) =>
        if i >= n { ListStaysEnded(d, r, n, i); } else { assert EntriesDone(d, r, c, i, r); }
      case _ =>
    }
  }

  /** No more blocks can be claimed than there are. */
  lemma ClaimsBounded(binfo: seq<Status>, c: Claims)
    requires Agree(binfo, c)
    ensures |c| <= |binfo|
  {
    assert c.Keys <= Below(|binfo|);
    SubsetSize(c.Keys, Below(|binfo|));
    assert |c| == |c.Keys|;
  }

  ghost function Below(n: nat): (s: set<nat>)
    ensures |s| == n && forall b: nat :: b in s <==> b < n
  {
    if n == 0 then {} else Below(n - 1) + {n - 1}
  }

  lemma {:induction false} SubsetSize<T>(a: set<T>, b: set<T>)
    requires a <= b
    ensures |a| <= |b|
  {
    if a != {} {
      var x :| x in a;
      SubsetSize(a - {x}, b - {x});
    }
  }

  /** Marks the blocks of all files. */
  method CheckFiles(below: BlockStore, r: nat, logRpb: nat, fsNblocks: nat, binfo: array<Status>, ghost c: Claims,
          ghost good: bool)
    returns (ok: bool, ghost c': Claims)
    requires Readable(below.blocks, r) && 1 <= logRpb < 32 && r == Pow(2, logRpb)
    requires fsNblocks == |below.blocks| == binfo.Length
    requires Agree(binfo[..], c) && FilesDone(below.blocks, r, c, 0) && GoodFiles(good, below.blocks, r, c, 0)
    modifies binfo
    ensures ok ==> Agree(binfo[..], c') && FilesDone(below.blocks, r, c', NumInodes(below.blocks, r))
    ensures ok ==> GoodFiles(good, below.blocks, r, c', NumInodes(below.blocks, r))
    ensures good ==> ok
  {
    hide Covered, FilesDone, GoodFiles, Agree, GoodTree, FileCovered, ClaimsTrue, Pow;
    ghost var d := below.blocks;
    c' := c;
    var superblock := below.Read(0);
    var perBlock := r / 2;
    var b, ino := 1, 0;
    while b <= superblock[0]
      invariant 1 <= b <= superblock[0] + 1 && ino == (b - 1) * perBlock <= NumInodes(d, r)
      invariant Agree(binfo[..], c') && FilesDone(d, r, c', ino) && GoodFiles(good, d, r, c', ino)
    {
      var tib := below.Read(b);
      var i := 0;
      NextBlockFits(b, superblock[0], perBlock);
      while i < perBlock
        invariant i <= perBlock && ino == (b - 1) * perBlock + i <= NumInodes(d, r)
        invariant Agree(binfo[..], c') && FilesDone(d, r, c', ino) && GoodFiles(good, d, r, c', ino)
      {
        InodeOf(d, r, b, i, ino);
        var root, nblocks := tib[2 * i], tib[2 * i + 1];
        if nblocks != 0 {
          var nlevels := CountLevels(nblocks, r, logRpb);
          ghost var before := c';
          GoodFile(good, d, r, c', ino);
          RootAt(d, r, ino);
          ok, c' := CheckInode(below, r, logRpb, nblocks, root, nlevels, 0, fsNblocks, binfo, ino, 0, c', good);
          if !ok {
            return false, c';
          }
          NextFile(d, r, before, c', ino);
          GoodNextFile(good, d, r, before, c', ino, nlevels);
        } else {
          EmptyNextFile(d, r, c', ino);
          GoodEmptyFile(good, d, r, c', ino);
        }
        i := i + 1;
        ino := ino + 1;
      }
      b := b + 1;
    }
    ok := true;
  }

  lemma RootAt(d: seq<Block>, r: nat, ino: nat)
    requires Readable(d, r) && ino < NumInodes(d, r)
    ensures NodeAt(d, r, ino, Levels(r, Size(d, r, ino)), 0) == Root(d, r, ino)
    ensures (0 * Pow(r, Levels(r, Size(d, r, ino)))) % TWO32 == 0
  {
  }

  lemma GoodEmptyFile(good: bool, d: seq<Block>, r: nat, c: Claims, upto: nat)
    requires GoodFiles(good, d, r, c, upto)
    ensures GoodFiles(good, d, r, c, upto + 1)
  {
  }

  lemma NextBlockFits(b: nat, n: nat, p: nat)
    requires 1 <= b <= n
    ensures (b - 1) * p + p <= n * p
    ensures b * p == (b - 1) * p + p
  {
    MulMonotone(p, b, n);
  }

  /** The i-th inode of inode block b. */
  lemma InodeOf(d: seq<Block>, r: nat, b: nat, i: nat, ino: nat)
    requires Readable(d, r) && 1 <= b <= NumInodeBlocks(d) && i < r / 2 && ino == (b - 1) * (r / 2) + i
    ensures ino < NumInodes(d, r) && 2 * i + 1 < r
    ensures d[b][2 * i] == Root(d, r, ino) && d[b][2 * i + 1] == Size(d, r, ino)
  {
    NextBlockFits(b, NumInodeBlocks(d), r / 2);
    QuotientUnique(ino, r / 2, b - 1, i);
    InodeInRange(d, r, ino);
  }

  method CountLevels(nblocks: Word, r: nat, logRpb: nat) returns (n: nat)
    requires nblocks > 0 && 1 <= logRpb < 32 && r == Pow(2, logRpb) && r >= 2
    ensures n == Levels(r, nblocks)
  {
    n := 0;
    LogShiftIsUp(nblocks - 1, logRpb, n);
    DigitsExact(r, nblocks - 1, n);
    while LogShiftR(nblocks - 1, n * logRpb) != 0
      invariant n <= Levels(r, nblocks)
      invariant LogShiftR(nblocks - 1, n * logRpb) == 0 <==> n >= Levels(r, nblocks)
      decreases Levels(r, nblocks) - n
    {
      n := n + 1;
      LogShiftIsUp(nblocks - 1, logRpb, n);
      DigitsExact(r, nblocks - 1, n);
    }
  }

  /** Marks the free list. It ends even if the list is cyclic, since every round marks a block. */
  method CheckFreeList(below: BlockStore, r: nat, fsNblocks: nat, binfo: array<Status>, ghost c: Claims,
          ghost good: bool)
    returns (ok: bool, ghost c': Claims, ghost n: nat)
    requires Readable(below.blocks, r) && fsNblocks == |below.blocks| == binfo.Length
    requires Agree(binfo[..], c) && GoodList(good, below.blocks, r, c, 0)
    modifies binfo
    ensures ok ==> Agree(binfo[..], c') && Extends(c, c') && ListDone(below.blocks, r, c', n) && ListNode(below.blocks, r, n) == 0
    ensures good ==> ok
  {
    hide GoodList, GoodEntries, ListDone, EntriesDone, Claimed, Agree, Extends, ListNode;
    ghost var d := below.blocks;
    c', n := c, 0;
    var superblock := below.Read(0);
    var fl := superblock[1];
    ListStart(d, r, c);
    ClaimsBounded(binfo[..], c');
    while fl != 0
      invariant fl == ListNode(d, r, n)
      invariant Agree(binfo[..], c') && Extends(c, c') && ListDone(d, r, c', n) && GoodList(good, d, r, c', n)
      invariant |c'| <= fsNblocks
      decreases fsNblocks - |c'|
    {
      ClaimNode(good, d, r, c', n, fl);
      if fl >= fsNblocks {
        return false, c', n;
      }
      AgreeAt(binfo[..], c', fl);
      if binfo[fl] != Unknown {
        return false, c', n;
      }
      ghost var size, c0 := |c'|, c';
      MarkAgrees(binfo[..], c', fl, FreeListBlk, FreeNode(n));
      ghost var was := binfo[..];
      binfo[fl] := FreeListBlk;
      assert binfo[..] == was[fl := FreeListBlk];
      NodeClaimed(d, r, c', n, fl);
      c' := c'[fl := FreeNode(n)];
      assert |c'| == size + 1;
      var tfb := below.Read(fl);
      ghost var c1 := c';
      ok, c' := CheckEntries(fl, tfb, r, fsNblocks, binfo, d, c', good, n);
      if !ok {
        return;
      }
      ListNextNode(d, r, c', n);
      ListAdvance(d, r, n, fl);
      ExtendsTwice(c, c0, c1, c');
      EntriesEnd(good, d, r, c', n);
      ClaimsBounded(binfo[..], c');
      fl := tfb[0];
      n := n + 1;
    }
    ok := true;
  }

  lemma ListStart(d: seq<Block>, r: nat, c: Claims)
    requires Readable(d, r)
    ensures ListDone(d, r, c, 0) && Extends(c, c) && ListNode(d, r, 0) == Top(d)
  {
  }

  lemma ListAdvance(d: seq<Block>, r: nat, n: nat, fl: nat)
    requires Readable(d, r) && 0 < fl == ListNode(d, r, n) < |d|
    ensures ListNode(d, r, n + 1) == d[fl][0]
  {
  }

  lemma ExtendsTwice(c: Claims, c0: Claims, c1: Claims, c2: Claims)
    requires Extends(c, c0) && Extends(c0, c1) && Extends(c1, c2)
    ensures Extends(c, c2)
  {
  }

  lemma NodeClaimed(d: seq<Block>, r: nat, c: Claims, n: nat, fl: nat)
    requires Readable(d, r) && ListDone(d, r, c, n) && fl == ListNode(d, r, n) < |d| && fl !in c
    ensures Extends(c, c[fl := FreeNode(n)]) && ListDone(d, r, c[fl := FreeNode(n)], n)
    ensures Claimed(d, r, c[fl := FreeNode(n)], FreeNode(n)) && EntriesDone(d, r, c[fl := FreeNode(n)], n, 1)
  {
    ListKept(d, r, c, c[fl := FreeNode(n)], n, 1);
  }

  lemma ListNextNode(d: seq<Block>, r: nat, c: Claims, n: nat)
    requires Readable(d, r) && ListDone(d, r, c, n) && Claimed(d, r, c, FreeNode(n)) && EntriesDone(d, r, c, n, r)
    ensures ListDone(d, r, c, n + 1)
  {
  }

  /** Marks the entries of one free-list node; references off the disk are passed over. */
  method CheckEntries(fl: nat, tfb: Block, r: nat, fsNblocks: nat, binfo: array<Status>, ghost d: seq<Block>,
          ghost c: Claims, ghost good: bool, ghost n: nat)
    returns (ok: bool, ghost c': Claims)
    requires Readable(d, r) && fsNblocks == |d| == binfo.Length
    requires 0 < fl == ListNode(d, r, n) < |d| && tfb == d[fl]
    requires Agree(binfo[..], c) && ListDone(d, r, c, n) && Claimed(d, r, c, FreeNode(n)) && EntriesDone(d, r, c, n, 1)
    requires GoodEntries(good, d, r, c, n, 1)
    modifies binfo
    ensures ok ==> Agree(binfo[..], c') && Extends(c, c') && |c'| >= |c|
    ensures ok ==> ListDone(d, r, c', n) && Claimed(d, r, c', FreeNode(n)) && EntriesDone(d, r, c', n, r)
    ensures ok ==> GoodEntries(good, d, r, c', n, r)
    ensures good ==> ok
  {
    hide GoodEntries, ListDone, Agree;
    c' := c;
    var i := 1;
    while i < r
      invariant 1 <= i <= r
      invariant Agree(binfo[..], c') && Extends(c, c') && |c'| >= |c|
      invariant ListDone(d, r, c', n) && Claimed(d, r, c', FreeNode(n)) && EntriesDone(d, r, c', n, i)
      invariant GoodEntries(good, d, r, c', n, i)
    {
      ClaimEntry(good, d, r, c', n, i, fl);
      var b := tfb[i];
      if b != 0 && b < fsNblocks {
        AgreeAt(binfo[..], c', b);
        if binfo[b] != Unknown {
          return false, c';
        }
        MarkAgrees(binfo[..], c', b, FreeBlk, FreeEntry(n, i));
        ghost var was := binfo[..];
        binfo[b] := FreeBlk;
        assert binfo[..] == was[b := FreeBlk];
        ListKept(d, r, c', c'[b := FreeEntry(n, i)], n, i);
        c' := c'[b := FreeEntry(n, i)];
      }
      i := i + 1;
    }
    ok := true;
  }

  /** Checks a disk: true if and only if, of the slots it comes to, no two lead to one block and none
      leads off the disk, and the free list ends. */
  method Check(below: BlockStore, r: nat, logRpb: nat) returns (ok: bool)
    requires Sized(below.blocks, r) && 1 <= logRpb < 32 && r == Pow(2, logRpb)
    requires NumInodeBlocks(below.blocks) + 1 < TWO32
    ensures ok <==> Accepted(below.blocks, r)
  {
    hide FilesDone, GoodFiles, GoodList, ListDone, Agree, Pow;
    var fsNblocks := |below.blocks|;
    ghost var d := below.blocks;
    ghost var good := Accepted(d, r);
    var superblock := below.Read(0);
    AcceptedParts(good, d, r);
    if 1 + superblock[0] > fsNblocks {
      return false;
    }
    if superblock[1] >= fsNblocks {
      return false;
    }
    var binfo := new Status[fsNblocks](b => Unknown);
    binfo[0] := SuperBlk;
    var b := 1;
    while b <= superblock[0]
      invariant 1 <= b <= superblock[0] + 1
      invariant forall k :: 0 <= k < fsNblocks ==> binfo[k] == if k == 0 then SuperBlk else if k < b then InodeBlk else Unknown
    {
      binfo[b] := InodeBlk;
      b := b + 1;
    }
    ghost var c: Claims := map k: nat | k <= superblock[0] :: if k == 0 then Super else InodeBlock(k);
    FirstClaims(binfo[..], d, r, c, good);
    ok, c := CheckFiles(below, r, logRpb, fsNblocks, binfo, c, good);
    if !ok {
      return;
    }
    GoodListStart(good, d, r, c);
    ghost var c', n;
    ok, c', n := CheckFreeList(below, r, fsNblocks, binfo, c, good);
    if !ok {
      return;
    }
    FilesKept(d, r, c, c', NumInodes(d, r));
    AllClaimed(d, r, c', n);
  }

  lemma AcceptedParts(good: bool, d: seq<Block>, r: nat)
    requires good ==> Accepted(d, r)
    ensures good ==> Readable(d, r) && Top(d) < |d|
  {
    if good { assert Reached(d, r, FreeNode(0)); }
  }

  lemma FirstClaims(binfo: seq<Status>, d: seq<Block>, r: nat, c: Claims, good: bool)
    requires Readable(d, r) && |binfo| == |d|
    requires forall j :: 0 <= j < |d| ==> binfo[j] == if j == 0 then SuperBlk else if j < NumInodeBlocks(d) + 1 then InodeBlk else Unknown
    requires forall j: nat :: j in c <==> j <= NumInodeBlocks(d)
    requires forall j: nat :: j in c ==> c[j] == if j == 0 then Super else InodeBlock(j)
    requires good ==> Accepted(d, r)
    ensures Agree(binfo, c) && FilesDone(d, r, c, 0) && GoodFiles(good, d, r, c, 0)
  {
    hide Accepted;
    forall b: nat ensures ClaimTrue(d, r, c, b) {
    }
  }

  lemma GoodListStart(good: bool, d: seq<Block>, r: nat, c: Claims)
    requires Readable(d, r) && GoodFiles(good, d, r, c, NumInodes(d, r))
    ensures GoodList(good, d, r, c, 0)
  {
  }

  // ---- the store's own disks ----

  /** On a disk the store has written, following references leads to the layout's block. */
  lemma {:induction false} NodeIs(d: seq<Block>, r: nat, m: Map, ino: nat, l: nat, idx: nat)
    requires Inv(d, r, m) && ino < NumInodes(d, r) && l <= Levels(r, Size(d, r, ino))
    ensures Readable(d, r) && NodeAt(d, r, ino, l, idx) == At(m, Tree(ino, l, idx))
    decreases Levels(r, Size(d, r, ino)) - l
  {
    hide FreeList, FixedPart, Partition, Size, Levels, Parent, LastDigit;
    CoreShape(d, r, m);
    if l == Levels(r, Size(d, r, ino)) {
      TopIs(d, r, m, ino, idx);
    } else {
      NodeIs(d, r, m, ino, l + 1, Parent(r, idx));
      ChildIs(d, r, m, ino, l, idx);
    }
  }

  lemma TopIs(d: seq<Block>, r: nat, m: Map, ino: nat, idx: nat)
    requires Inv(d, r, m) && Shaped(d, r, m) && ino < NumInodes(d, r)
    ensures At(m, Tree(ino, Levels(r, Size(d, r, ino)), idx)) == if idx == 0 then Root(d, r, ino) else 0
  {
    hide FreeList, FixedPart, Partition;
    var l := Levels(r, Size(d, r, ino));
    assert FileOk(d, r, m, ino);
    assert TreeSlotOk(r, m, ino, Size(d, r, ino), l, idx);
    if Tree(ino, l, idx) in m.at {
      TopAncestor(r, Size(d, r, ino), l, idx);
      UpZero(r, idx);
    }
  }

  lemma ChildIs(d: seq<Block>, r: nat, m: Map, ino: nat, l: nat, idx: nat)
    requires Inv(d, r, m) && Shaped(d, r, m) && ino < NumInodes(d, r) && l < Levels(r, Size(d, r, ino))
    ensures var p := At(m, Tree(ino, l + 1, Parent(r, idx)));
      At(m, Tree(ino, l, idx)) == if p == 0 || p >= |d| then 0 else d[p][LastDigit(r, idx)]
  {
    hide FreeList, FixedPart;
    var up := Tree(ino, l + 1, Parent(r, idx));
    assert FileOk(d, r, m, ino);
    assert TreeSlotOk(r, m, ino, Size(d, r, ino), l, idx);
    if At(m, up) == 0 {
      NotZero(d, r, m, up);
    } else {
      assert TreeRefsOk(d, r, m, ino, l + 1, Parent(r, idx));
      KidOfDigits(r, idx);
    }
  }

  /** The layout's slot for a slot counted from the head. */
  ghost function Flip(m: Map, s: Slot): Slot {
    match s
    case FreeNode(i) => if i < m.height then FreeNode(m.height - 1 - i) else s
    case FreeEntry(i, j) => if i < m.height then FreeEntry(m.height - 1 - i, j) else s
    case _ => s
  }

  lemma {:induction false} ListNodeIs(d: seq<Block>, r: nat, m: Map, i: nat)
    requires Inv(d, r, m) && i <= m.height
    ensures ListNode(d, r, i) == Next(m, m.height - i)
    ensures i < m.height ==> FreeNode(m.height - 1 - i) in m.at && m.at[FreeNode(m.height - 1 - i)] == ListNode(d, r, i)
  {
    assert m.owner[0] == Super by { assert m.at[Super] == 0; }
    if i > 0 {
      ListNodeIs(d, r, m, i - 1);
      assert FreeNodeOk(d, r, m, m.height - i);
    }
    if i < m.height { assert FreeNode(m.height - 1 - i) in m.at; }
  }

  lemma WhereIs(d: seq<Block>, r: nat, m: Map, s: Slot)
    requires Inv(d, r, m) && Reached(d, r, s) && Where(d, r, s) != 0
    ensures Where(d, r, s) < |d| && m.owner[Where(d, r, s)] == Flip(m, s)
    ensures (s.FreeNode? || s.FreeEntry?) ==> s.i < m.height
  {
    match s
    case InodeBlock(k) => assert s in m.at;
    case Tree(ino, l, idx) =>
      VisitsLevel(r, Size(d, r, ino), l, idx);
      NodeIs(d, r, m, ino, l, idx);
    case FreeNode(i) =>
      ListNodeIs(d, r, m, if i < m.height then i else m.height);
      if i >= m.height { ListStaysEnded(d, r, m.height, i); }
    case FreeEntry(i, j) =>
      ListNodeIs(d, r, m, if i < m.height then i else m.height);
      if i >= m.height {
        ListStaysEnded(d, r, m.height, i);
      } else {
        assert FreeNodeOk(d, r, m, m.height - 1 - i);
      }
    case _ =>
  }

  /** The checker accepts every disk the store has written. */
  lemma OwnDisks(d: seq<Block>, r: nat, m: Map)
    requires Inv(d, r, m)
    ensures Accepted(d, r)
  {
    CoreShape(d, r, m);
    hide NodeAt, ListNode, Visits;
    forall s | Reached(d, r, s) ensures Where(d, r, s) < |d| {
      if Where(d, r, s) != 0 { WhereIs(d, r, m, s); }
    }
    forall s, t | Reached(d, r, s) && Reached(d, r, t) && Where(d, r, s) == Where(d, r, t) != 0 ensures s == t {
      WhereIs(d, r, m, s);
      WhereIs(d, r, m, t);
    }
    ListNodeIs(d, r, m, m.height);
  }

  // ---- accepted and sound ----

  /** Positions beyond the end of a file hold no reference, if the file is so large that offsets may
      wrap before its end is noticed. */
  ghost predicate CleanEnds(d: seq<Block>, r: nat, k: nat)
    requires Readable(d, r) && k >= 1
  {
    forall ino: nat, l: nat, idx: nat :: ino < NumInodes(d, r) && Size(d, r, ino) > Widest(k) && Beyond(d, r, ino, l, idx) ==>
      NodeAt(d, r, ino, l, idx) == 0
  }

  ghost predicate Beyond(d: seq<Block>, r: nat, ino: nat, l: nat, idx: nat)
    requires Readable(d, r) && ino < NumInodes(d, r)
  {
    l <= Levels(r, Size(d, r, ino)) && !InSize(r, Size(d, r, ino), l, idx)
  }

  /** The largest power of the branching factor up to 2^32. */
  function Widest(k: nat): nat
    requires k >= 1
  {
    Pow(2, k * (32 / k))
  }

  lemma BelowEnd(r: nat, size: nat, l: nat, x: nat)
    requires r >= 2 && x * Pow(r, l) < size
    ensures x <= Up(r, size - 1, l)
  {
    PowPositive(r, l);
    var p := Pow(r, l);
    DivMonotone(x * p, size - 1, p);
    QuotientUnique(x * p, p, x, 0);
  }

  /** The next child starts before the end, unless the file is so large that offsets wrap. */
  lemma NoWrap(k: nat, size: Word, l: nat, idx: nat, i: nat)
    requires 1 <= k < 32 && Pow(2, k) >= 2 && 0 < size <= Widest(k) && 0 < l <= Levels(Pow(2, k), size)
    requires i + 1 < Pow(2, k)
    requires Kid(Pow(2, k), idx, i) * Pow(Pow(2, k), l - 1) < size
    requires (Kid(Pow(2, k), idx, i + 1) * Pow(Pow(2, k), l - 1)) % TWO32 < size
    ensures Kid(Pow(2, k), idx, i + 1) * Pow(Pow(2, k), l - 1) < size
  {
    hide Pow, Digits;
    SubtreeFits(k, size, l);
    WidestIs(k, l);
    NoWrapBy(Pow(2, k), size, Pow(Pow(2, k), l - 1), 32 / k - (l - 1), Widest(k), idx, i);
  }

  /** It is a multiple of every step of a scan. */
  lemma WidestIs(k: nat, l: nat)
    requires 1 <= k < 32 && l > 0 && 0 <= (l - 1) * k < 32
    ensures l - 1 <= 32 / k && Widest(k) <= TWO32
    ensures Widest(k) == Pow(Pow(2, k), l - 1) * Pow(Pow(2, k), 32 / k - (l - 1))
    ensures l - 1 == 32 / k ==> Widest(k) < TWO32
  {
    hide Pow;
    var q := 32 / k;
    WholeShifts(k, l - 1);
    PowPow(2, k, q);
    PowAdd(Pow(2, k), l - 1, q - (l - 1));
    WidestFits(k);
  }

  lemma WholeShifts(k: nat, n: nat)
    requires 1 <= k < 32 && n * k < 32
    ensures n <= 32 / k
  {
    DivMonotone(n * k, 32, k);
    QuotientUnique(n * k, k, n, 0);
  }

  lemma WidestFits(k: nat)
    requires 1 <= k < 32
    ensures Widest(k) <= TWO32 && (k * (32 / k) < 32 ==> Widest(k) < TWO32)
  {
    hide Pow;
    var n := k * (32 / k);
    assert n <= 32 by { assert 32 == k * (32 / k) + 32 % k; }
    Pow2Of32();
    PowMonotone(2, n, 32);
    if n < 32 {
      PowMonotone(2, n + 1, 32);
      PowTwo(n);
    }
  }

  lemma PowTwo(n: nat)
    ensures Pow(2, n + 1) == 2 * Pow(2, n) && Pow(2, n) > 0
  {
    PowPositive(2, n);
  }

  lemma NoWrapBy(r: nat, size: Word, p: nat, e: nat, w: nat, idx: nat, i: nat)
    requires r >= 2 && i + 1 < r && size <= w <= TWO32 && w == p * Pow(r, e) && (e == 0 ==> w < TWO32)
    requires Kid(r, idx, i) * p < size && (Kid(r, idx, i + 1) * p) % TWO32 < size
    ensures Kid(r, idx, i + 1) * p < size
  {
    var x, q, t := Kid(r, idx, i), Pow(r, e), (Kid(r, idx, i) + 1) * p;
    if x >= q { MulMonotone(p, q, x); }
    MulMonotone(p, x + 1, q);
    if t >= size {
      WrapsAt(t, size);
      if e > 0 {
        WholeRow(r, idx, i, p, Pow(r, e - 1));
      }
    }
  }

  lemma WrapsAt(t: nat, size: Word)
    requires size <= t <= TWO32 && t % TWO32 < size
    ensures t == TWO32
  {
  }

  /** No child but the first starts where a whole row of children does. */
  lemma WholeRow(r: nat, idx: nat, i: nat, p: nat, q: nat)
    requires r >= 2 && i + 1 < r && p > 0
    ensures (Kid(r, idx, i) + 1) * p != p * (r * q)
  {
    var x := Kid(r, idx, i) + 1;
    if x * p == p * (r * q) {
      if x < r * q { MulMonotone(p, x + 1, r * q); }
      if x > r * q { MulMonotone(p, r * q + 1, x); }
      Euclid(r, idx, i + 1, q, 0);
    }
  }

  lemma FirstStart(r: nat, size: nat, l: nat, idx: nat)
    requires r >= 2 && l > 0 && InSize(r, size, l, idx)
    ensures Kid(r, idx, 0) * Pow(r, l - 1) < size
  {
    FirstOffset(r, l, idx);
    UpTimes(r, size - 1, l);
    MulMonotone(Pow(r, l), idx, Up(r, size - 1, l));
  }

  /** The scan comes to every position in the file, and to no other if the file is not so large that
      offsets wrap. */
  lemma {:induction false} InSizeVisits(r: nat, size: Word, l: nat, idx: nat)
    requires r >= 2 && InSize(r, size, l, idx)
    ensures Visits(r, size, l, idx)
    decreases Levels(r, size) - l
  {
    hide InSize, Pow, Starts, Levels;
    if l == Levels(r, size) {
      InSizeTop(r, size, idx);
    } else {
      InSizeParent(r, size, l, idx);
      InSizeVisits(r, size, l + 1, Parent(r, idx));
      forall x: nat | Kid(r, Parent(r, idx), 0) < x <= idx ensures Starts(r, size, l, x) {
        InSizeStarts(r, size, l, idx, x);
      }
    }
  }

  lemma InSizeTop(r: nat, size: nat, idx: nat)
    requires r >= 2 && InSize(r, size, Levels(r, size), idx)
    ensures size > 0 && idx == 0
  {
    DigitsExact(r, size - 1, Levels(r, size));
  }

  lemma InSizeParent(r: nat, size: nat, l: nat, idx: nat)
    requires r >= 2 && InSize(r, size, l, idx) && l != Levels(r, size)
    ensures l < Levels(r, size) && InSize(r, size, l + 1, Parent(r, idx))
  {
    hide Up, Digits;
    UpStep(r, size - 1, l);
    DivMonotone(idx, Up(r, size - 1, l), r);
  }

  lemma InSizeStarts(r: nat, size: Word, l: nat, idx: nat, x: nat)
    requires r >= 2 && InSize(r, size, l, idx) && x <= idx
    ensures Starts(r, size, l, x)
  {
    hide Digits;
    UpTimes(r, size - 1, l);
    MulMonotone(Pow(r, l), x, Up(r, size - 1, l));
  }

  lemma {:induction false} VisitsInSize(k: nat, size: Word, l: nat, idx: nat)
    requires 1 <= k < 32 && Pow(2, k) >= 2 && size <= Widest(k) && Visits(Pow(2, k), size, l, idx)
    ensures InSize(Pow(2, k), size, l, idx)
    decreases Levels(Pow(2, k), size) - l
  {
    hide Up, Pow, Widest;
    var r := Pow(2, k);
    if l < Levels(r, size) {
      VisitsInSize(k, size, l + 1, Parent(r, idx));
      FirstStart(r, size, l + 1, Parent(r, idx));
      KidOfDigits(r, idx);
      KidsStart(k, r, size, l, Parent(r, idx), LastDigit(r, idx));
      BelowEnd(r, size, l, idx);
    }
  }

  lemma {:induction false} KidsStart(k: nat, r: nat, size: Word, l: nat, idx: nat, i: nat)
    requires 1 <= k < 32 && r == Pow(2, k) >= 2 && 0 < size <= Widest(k) && l < Levels(r, size)
    requires i < r && Kid(r, idx, 0) * Pow(r, l) < size
    requires forall x: nat :: Kid(r, idx, 0) < x <= Kid(r, idx, i) ==> Starts(r, size, l, x)
    ensures Kid(r, idx, i) * Pow(r, l) < size
  {
    hide Pow, Widest, Levels;
    if i > 0 {
      KidsStart(k, r, size, l, idx, i - 1);
      assert Starts(r, size, l, Kid(r, idx, i));
      NoWrap(k, size, l + 1, idx, i - 1);
    }
  }

  /** Accepted disks are sound. */
  lemma AcceptedIsSound(d: seq<Block>, r: nat)
    requires Accepted(d, r)
    ensures Sound(d, r)
  {
    hide Where, Visits, InSize;
    forall s | Counted(d, r, s) ensures Reached(d, r, s) {
      if s.Tree? { InSizeVisits(r, Size(d, r, s.ino), s.level, s.idx); }
    }
  }

  lemma WithinOrBeyond(d: seq<Block>, r: nat, ino: nat, l: nat, idx: nat)
    requires Readable(d, r) && ino < NumInodes(d, r) && l <= Levels(r, Size(d, r, ino))
    ensures InSize(r, Size(d, r, ino), l, idx) || Beyond(d, r, ino, l, idx)
  {
  }

  /** A sound disk is accepted if files so large that offsets wrap hold no reference beyond their end. */
  lemma CleanIsAccepted(d: seq<Block>, r: nat, k: nat)
    requires Sound(d, r) && 1 <= k < 32 && r == Pow(2, k) && CleanEnds(d, r, k)
    ensures Accepted(d, r)
  {
    hide Visits, InSize, NodeAt, Pow, Widest;
    forall s | Reached(d, r, s) && Where(d, r, s) != 0 ensures Counted(d, r, s) {
      if s.Tree? {
        var size := Size(d, r, s.ino);
        if size <= Widest(k) {
          VisitsInSize(k, size, s.level, s.idx);
        } else {
          VisitsLevel(r, size, s.level, s.idx);
          WithinOrBeyond(d, r, s.ino, s.level, s.idx);
        }
      }
    }
  }

  /** If the number of bits of a block's references divides 32, or no file is that large, the checker
      accepts exactly the sound disks. */
  lemma SoundIsAccepted(d: seq<Block>, r: nat, k: nat)
    requires Readable(d, r) && 1 <= k < 32 && r == Pow(2, k)
    requires 32 % k == 0 || forall ino: nat :: ino < NumInodes(d, r) ==> Size(d, r, ino) <= Widest(k)
    ensures Accepted(d, r) <==> Sound(d, r)
  {
    hide Sound, Accepted, Pow, NodeAt;
    if 32 % k == 0 {
      assert k * (32 / k) == 32;
      Pow2Of32();
    }
    if Sound(d, r) { CleanIsAccepted(d, r, k); }
    if Accepted(d, r) { AcceptedIsSound(d, r); }
  }

  // ---- a sound disk that is refused ----

  function RefusedDisk(): seq<Block> {
    [[1, 0, 0, 0, 0, 0, 0, 0], [2, 0xFFFF_FFFF, 0, 0, 0, 0, 0, 0], [0, 0, 0, 0, 9, 0, 0, 0]]
  }

  /** Where the two blocks in use are found */
  function RefusedAt(s: Slot): nat {
    if s.InodeBlock? then 1 else if s.Tree? && s.ino == 0 && s.level == 11 then 2 else 0
  }

  /** With eight references a block, a reference past the end of a file of 2^32 - 1 blocks, which no
      operation ever follows, makes the checker refuse a sound disk. */
  lemma RefusedExample()
    ensures Sound(RefusedDisk(), 8) && !Accepted(RefusedDisk(), 8)
  {
    hide Visits, InSize;
    var d := RefusedDisk();
    RefusedFiles();
    RefusedLevels();
    forall s | Counted(d, 8, s) ensures Where(d, 8, s) == RefusedAt(s) {
      match s
      case InodeBlock(k) =>
      case Tree(ino, l, idx) => RefusedInside(ino, l, idx);
      case FreeNode(i) => ListStaysEnded(d, 8, 0, i);
      case FreeEntry(i, j) => ListStaysEnded(d, 8, 0, i);
      case _ =>
    }
    assert ListNode(d, 8, 0) == 0;
    forall s, t | Counted(d, 8, s) && Counted(d, 8, t) && Where(d, 8, s) == Where(d, 8, t) != 0 ensures s == t {
      if s.Tree? && t.Tree? {
        InSizeTop(8, 0xFFFF_FFFF, s.idx);
        InSizeTop(8, 0xFFFF_FFFF, t.idx);
      }
    }
    RefusedVisits();
    assert Reached(d, 8, Tree(0, 10, 4));
  }

  lemma RefusedFiles()
    ensures Readable(RefusedDisk(), 8) && NumInodes(RefusedDisk(), 8) == 4
    ensures Root(RefusedDisk(), 8, 0) == 2
    ensures forall ino: nat :: ino < 4 ==> Size(RefusedDisk(), 8, ino) == if ino == 0 then 0xFFFF_FFFF else 0
  {
  }

  lemma RefusedLevels()
    ensures Pow(8, 10) == 0x4000_0000 && Levels(8, 0xFFFF_FFFF) == 11
    ensures Up(8, 0xFFFF_FFFE, 10) == 3
  {
    EightPowers();
    hide Pow, Digits;
    DigitsExact(8, 0xFFFF_FFFE, 10);
    DigitsExact(8, 0xFFFF_FFFE, 11);
  }

  lemma EightPowers()
    ensures Pow(8, 10) == 0x4000_0000 && Pow(8, 11) == 0x2_0000_0000
  {
    assert Pow(8, 5) == 0x8000;
    PowAdd(8, 5, 5);
  }

  /** The file holds its root and nothing else. */
  lemma {:induction false} RefusedInside(ino: nat, l: nat, idx: nat)
    requires Readable(RefusedDisk(), 8) && ino < NumInodes(RefusedDisk(), 8)
    requires InSize(8, Size(RefusedDisk(), 8, ino), l, idx)
    ensures ino == 0 && l <= 11 && NodeAt(RefusedDisk(), 8, ino, l, idx) == if l == 11 then 2 else 0
    decreases 11 - l
  {
    hide Pow, Digits, Up;
    RefusedFiles();
    RefusedLevels();
    if l == 11 {
      InSizeTop(8, 0xFFFF_FFFF, idx);
    } else {
      InSizeParent(8, 0xFFFF_FFFF, l, idx);
      RefusedInside(0, l + 1, Parent(8, idx));
    }
  }

  lemma RefusedVisits()
    ensures Readable(RefusedDisk(), 8) && NumInodes(RefusedDisk(), 8) == 4
    ensures Visits(8, Size(RefusedDisk(), 8, 0), 10, 4) && NodeAt(RefusedDisk(), 8, 0, 10, 4) == 9
  {
    hide Pow, Digits, Up;
    RefusedFiles();
    RefusedLevels();
    assert Visits(8, 0xFFFF_FFFF, 11, 0);
  }
}
