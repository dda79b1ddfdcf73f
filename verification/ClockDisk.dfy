/** The CLOCK cache: a block store that keeps some blocks of the store below, and writes them back
    when it needs their slots. */
module ClockDisks {
  import opened Layout
  import opened Radix

  datatype Status = Empty | Old | New

  /** What a slot of the cache holds; of an empty one, the other fields mean nothing. */
  datatype Info = Info(status: Status, dirty: bool, ino: Word, off: Word)

  /** The store below: files of a given number of blocks, that can perhaps be cut. */
  class Files {
    var files: seq<seq<Block>>
    const shrinks: bool

    constructor (files: seq<seq<Block>>, shrinks: bool)
      ensures this.files == files && this.shrinks == shrinks
    {
      this.files, this.shrinks := files, shrinks;
    }

    method Read(ino: Word, off: Word) returns (ok: bool, blk: Block)
      ensures ok <==> InRange(files, ino, off)
      ensures ok ==> blk == files[ino][off]
    {
      ok, blk := ino < |files| && off < |files[ino]|, [];
      if ok { blk := files[ino][off]; }
    }

    method Write(ino: Word, off: Word, blk: Block) returns (ok: bool)
      modifies this
      ensures ok <==> InRange(old(files), ino, off)
      ensures files == PutBlock(old(files), ino, off, blk)
    {
      ok := ino < |files| && off < |files[ino]|;
      if ok { files := files[ino := files[ino][off := blk]]; }
    }

    method SetSize(ino: Word, n: Word) returns (r: int)
      modifies this
      ensures r == if Cuts(old(files), shrinks, ino, n) then |old(files)[ino]| else -1
      ensures files == if Cuts(old(files), shrinks, ino, n) then old(files)[ino := old(files)[ino][..n]] else old(files)
    {
      r := -1;
      if Cuts(files, shrinks, ino, n) {
        r := |files[ino]|;
        files := files[ino := files[ino][..n]];
      }
    }
  }

  predicate InRange(files: seq<seq<Block>>, ino: nat, off: nat) {
    ino < |files| && off < |files[ino]|
  }

  /** The files after a write; a write out of range fails. */
  function PutBlock(files: seq<seq<Block>>, ino: nat, off: nat, blk: Block): seq<seq<Block>> {
    if InRange(files, ino, off) then files[ino := files[ino][off := blk]] else files
  }

  predicate Cuts(files: seq<seq<Block>>, shrinks: bool, ino: nat, n: nat) {
    shrinks && ino < |files| && n <= |files[ino]|
  }

  // ---- slots ----

  predicate Hit(info: Info, ino: nat, off: nat) {
    !info.status.Empty? && info.ino == ino && info.off == off
  }

  /** The first slot from i on that holds the block, or -1. */
  function Find(infos: seq<Info>, ino: nat, off: nat, i: nat): (r: int)
    requires i <= |infos|
    ensures -1 <= r < |infos|
    decreases |infos| - i
  {
    if i == |infos| then -1 else if Hit(infos[i], ino, off) then i else Find(infos, ino, off, i + 1)
  }

  lemma {:induction false} FindIs(infos: seq<Info>, ino: nat, off: nat, i: nat)
    requires i <= |infos|
    ensures var r := Find(infos, ino, off, i);
      && (r >= 0 ==> i <= r && Hit(infos[r], ino, off))
      && (r < 0 ==> forall j :: i <= j < |infos| ==> !Hit(infos[j], ino, off))
    decreases |infos| - i
  {
    if i < |infos| && !Hit(infos[i], ino, off) { FindIs(infos, ino, off, i + 1); }
  }

  /** No block is in two slots. */
  ghost predicate Distinct(infos: seq<Info>) {
    forall i, j :: 0 <= i < j < |infos| ==> !Same(infos[i], infos[j])
  }

  predicate Same(a: Info, b: Info) {
    !a.status.Empty? && Hit(b, a.ino, a.off)
  }

  lemma FindOnly(infos: seq<Info>, ino: nat, off: nat, j: nat)
    requires Distinct(infos) && j < |infos| && Hit(infos[j], ino, off)
    ensures Find(infos, ino, off, 0) == j
  {
    FindIs(infos, ino, off, 0);
    OnlyHit(infos, ino, off, j);
  }

  lemma OnlyHit(infos: seq<Info>, ino: nat, off: nat, i: nat)
    requires Distinct(infos) && i < |infos| && Hit(infos[i], ino, off)
    ensures forall j :: 0 <= j < |infos| && Hit(infos[j], ino, off) ==> j == i
  {
    forall j | 0 <= j < |infos| && Hit(infos[j], ino, off) ensures j == i {
      assert Same(infos[i], infos[j]) && Same(infos[j], infos[i]);
    }
  }

  /** A slot that need not be written back holds what is below. */
  ghost predicate CleanOk(infos: seq<Info>, blocks: seq<Block>, files: seq<seq<Block>>, i: nat)
    requires |infos| == |blocks|
  {
    i < |infos| && !infos[i].status.Empty? && !infos[i].dirty && InRange(files, infos[i].ino, infos[i].off) ==>
      blocks[i] == files[infos[i].ino][infos[i].off]
  }

  ghost predicate Coherent(infos: seq<Info>, blocks: seq<Block>, files: seq<seq<Block>>) {
    && |infos| == |blocks| > 0 && Distinct(infos)
    && forall i: nat :: CleanOk(infos, blocks, files, i)
  }

  // ---- what the store holds ----

  ghost function BlockOf(infos: seq<Info>, blocks: seq<Block>, files: seq<seq<Block>>, ino: nat, off: nat): Block
    requires |infos| == |blocks| && InRange(files, ino, off)
  {
    var i := Find(infos, ino, off, 0);
    if i >= 0 then blocks[i] else files[ino][off]
  }

  ghost function Merged(infos: seq<Info>, blocks: seq<Block>, files: seq<seq<Block>>): (s: seq<seq<Block>>)
    requires |infos| == |blocks|
    ensures SameShape(s, files)
  {
    seq(|files|, i requires 0 <= i < |files| =>
      seq(|files[i]|, o requires 0 <= o < |files[i]| => BlockOf(infos, blocks, files, i, o)))
  }

  ghost predicate SameShape(s: seq<seq<Block>>, t: seq<seq<Block>>) {
    |s| == |t| && forall i :: 0 <= i < |s| ==> |s[i]| == |t[i]|
  }

  lemma EqualFiles(s: seq<seq<Block>>, t: seq<seq<Block>>)
    requires SameShape(s, t) && forall i: nat, o: nat :: InRange(s, i, o) ==> s[i][o] == t[i][o]
    ensures s == t
  {
    forall i | 0 <= i < |s| ensures s[i] == t[i] {
      forall o | 0 <= o < |s[i]| ensures s[i][o] == t[i][o] {
        assert InRange(s, i, o);
      }
    }
  }

  /** The store's contents are given by its contents block by block. */
  lemma MergedIs(infos: seq<Info>, blocks: seq<Block>, files: seq<seq<Block>>, s: seq<seq<Block>>)
    requires |infos| == |blocks| && SameShape(s, files)
    requires forall i: nat, o: nat :: InRange(files, i, o) ==> BlockOf(infos, blocks, files, i, o) == s[i][o]
    ensures Merged(infos, blocks, files) == s
  {
    var t := Merged(infos, blocks, files);
    forall i: nat, o: nat | InRange(t, i, o) ensures t[i][o] == s[i][o] {
      assert InRange(files, i, o);
    }
    EqualFiles(t, s);
  }

  /** Contents do not depend on which slots are new or old. */
  lemma AgedSame(infos: seq<Info>, infos': seq<Info>, blocks: seq<Block>, files: seq<seq<Block>>, i: nat,
          status: Status)
    requires Coherent(infos, blocks, files) && i < |infos| && !infos[i].status.Empty? && !status.Empty?
    requires infos' == infos[i := infos[i].(status := status)]
    ensures Coherent(infos', blocks, files) && Merged(infos', blocks, files) == Merged(infos, blocks, files)
    ensures forall ino: nat, off: nat :: Find(infos', ino, off, 0) == Find(infos, ino, off, 0)
  {
    forall ino: nat, off: nat ensures Find(infos', ino, off, 0) == Find(infos, ino, off, 0) {
      FindSame(infos, infos', ino, off, 0);
    }
    forall j, k | 0 <= j < k < |infos'| ensures !Same(infos'[j], infos'[k]) {
      assert !Same(infos[j], infos[k]);
    }
    forall j: nat ensures CleanOk(infos', blocks, files, j) {
      assert CleanOk(infos, blocks, files, j);
    }
    MergedIs(infos', blocks, files, Merged(infos, blocks, files));
  }

  lemma {:induction false} FindSame(infos: seq<Info>, infos': seq<Info>, ino: nat, off: nat, i: nat)
    requires i <= |infos| == |infos'|
    requires forall j :: i <= j < |infos| ==> (Hit(infos'[j], ino, off) <==> Hit(infos[j], ino, off))
    ensures Find(infos', ino, off, i) == Find(infos, ino, off, i)
    decreases |infos| - i
  {
    if i < |infos| { FindSame(infos, infos', ino, off, i + 1); }
  }

  // ---- one slot changes ----

  /** A slot written back is clean. */
  lemma WrittenBack(infos: seq<Info>, blocks: seq<Block>, files: seq<seq<Block>>, i: nat)
    requires Coherent(infos, blocks, files) && i < |infos| && !infos[i].status.Empty?
    ensures var files' := PutBlock(files, infos[i].ino, infos[i].off, blocks[i]);
      && Coherent(infos, blocks, files') && Coherent(infos[i := infos[i].(dirty := false)], blocks, files')
      && Merged(infos, blocks, files') == Merged(infos[i := infos[i].(dirty := false)], blocks, files') == Merged(infos, blocks, files)
      && SameShape(files', files)
      && (InRange(files, infos[i].ino, infos[i].off) ==> files'[infos[i].ino][infos[i].off] == blocks[i])
  {
    var e, infos' := infos[i], infos[i := infos[i].(dirty := false)];
    var files' := PutBlock(files, e.ino, e.off, blocks[i]);
    forall j, k | 0 <= j < k < |infos'| ensures !Same(infos'[j], infos'[k]) {
      assert !Same(infos[j], infos[k]);
    }
    forall j: nat ensures CleanOk(infos, blocks, files', j) && CleanOk(infos', blocks, files', j) {
      assert CleanOk(infos, blocks, files, j);
      if j < i { assert !Same(infos[j], infos[i]); }
      if i < j < |infos| { assert !Same(infos[i], infos[j]); }
    }
    var s := Merged(infos, blocks, files);
    forall ino: nat, off: nat | InRange(files', ino, off)
      ensures BlockOf(infos, blocks, files', ino, off) == BlockOf(infos', blocks, files', ino, off) == s[ino][off] {
      FindSame(infos, infos', ino, off, 0);
      if Hit(e, ino, off) { FindOnly(infos, ino, off, i); }
      assert InRange(files, ino, off);
    }
    MergedIs(infos, blocks, files', s);
    MergedIs(infos', blocks, files', s);
  }

  /** A slot that is clean, or out of range, can go: what it holds is below. */
  lemma Dropped(infos: seq<Info>, blocks: seq<Block>, files: seq<seq<Block>>, i: nat)
    requires Coherent(infos, blocks, files) && i < |infos|
    ensures var infos' := infos[i := infos[i].(status := Empty)];
      && Coherent(infos', blocks, files)
      && (forall ino: nat, off: nat :: InRange(files, ino, off) ==>
            BlockOf(infos', blocks, files, ino, off) == if Hit(infos[i], ino, off) then files[ino][off] else BlockOf(infos, blocks, files, ino, off))
      && (forall ino: nat, off: nat :: Find(infos', ino, off, 0) == if Hit(infos[i], ino, off) then -1 else Find(infos, ino, off, 0))
  {
    var e, infos' := infos[i], infos[i := infos[i].(status := Empty)];
    forall j, k | 0 <= j < k < |infos'| ensures !Same(infos'[j], infos'[k]) {
      assert !Same(infos[j], infos[k]);
    }
    forall j: nat ensures CleanOk(infos', blocks, files, j) {
      assert CleanOk(infos, blocks, files, j);
    }
    forall ino: nat, off: nat ensures Find(infos', ino, off, 0) == if Hit(e, ino, off) then -1 else Find(infos, ino, off, 0) {
      if Hit(e, ino, off) {
        FindIs(infos', ino, off, 0);
        OnlyHit(infos, ino, off, i);
      } else {
        FindSame(infos, infos', ino, off, 0);
      }
    }
  }

  /** A block comes into an empty slot. */
  lemma Filled(infos: seq<Info>, blocks: seq<Block>, files: seq<seq<Block>>, i: nat, info: Info, blk: Block)
    requires Coherent(infos, blocks, files) && i < |infos| && infos[i].status.Empty? && !info.status.Empty?
    requires Find(infos, info.ino, info.off, 0) < 0
    requires !info.dirty && InRange(files, info.ino, info.off) ==> blk == files[info.ino][info.off]
    ensures var infos', blocks' := infos[i := info], blocks[i := blk];
      && Coherent(infos', blocks', files) && Find(infos', info.ino, info.off, 0) == i
      && Merged(infos', blocks', files) == PutBlock(Merged(infos, blocks, files), info.ino, info.off, blk)
  {
    var infos', blocks' := infos[i := info], blocks[i := blk];
    FindIs(infos, info.ino, info.off, 0);
    forall j, k | 0 <= j < k < |infos'| ensures !Same(infos'[j], infos'[k]) {
      assert !Same(infos[j], infos[k]);
    }
    forall j: nat ensures CleanOk(infos', blocks', files, j) {
      assert CleanOk(infos, blocks, files, j);
    }
    FindOnly(infos', info.ino, info.off, i);
    var s := PutBlock(Merged(infos, blocks, files), info.ino, info.off, blk);
    forall ino: nat, off: nat | InRange(files, ino, off) ensures BlockOf(infos', blocks', files, ino, off) == s[ino][off] {
      if ino != info.ino || off != info.off { FindSame(infos, infos', ino, off, 0); }
      FindIs(infos', ino, off, 0);
    }
    MergedIs(infos', blocks', files, s);
  }

  /** A block is overwritten in its slot. */
  lemma Overwritten(infos: seq<Info>, blocks: seq<Block>, files: seq<seq<Block>>, i: nat, blk: Block)
    requires Coherent(infos, blocks, files) && i < |infos| && !infos[i].status.Empty?
    ensures var infos', blocks' := infos[i := infos[i].(status := New, dirty := true)], blocks[i := blk];
      && Coherent(infos', blocks', files)
      && Merged(infos', blocks', files) == PutBlock(Merged(infos, blocks, files), infos[i].ino, infos[i].off, blk)
  {
    var e, infos', blocks' := infos[i], infos[i := infos[i].(status := New, dirty := true)], blocks[i := blk];
    forall j, k | 0 <= j < k < |infos'| ensures !Same(infos'[j], infos'[k]) {
      assert !Same(infos[j], infos[k]);
    }
    forall j: nat ensures CleanOk(infos', blocks', files, j) {
      assert CleanOk(infos, blocks, files, j);
    }
    var s := PutBlock(Merged(infos, blocks, files), e.ino, e.off, blk);
    forall ino: nat, off: nat | InRange(files, ino, off) ensures BlockOf(infos', blocks', files, ino, off) == s[ino][off] {
      FindSame(infos, infos', ino, off, 0);
      FindIs(infos, ino, off, 0);
      if Hit(e, ino, off) { FindOnly(infos, ino, off, i); }
    }
    MergedIs(infos', blocks', files, s);
  }

  // ---- the clock ----

  /** The k-th slot that the hand comes to. */
  function Turn(hand: nat, k: nat, n: nat): nat
    requires hand < n && k <= n
  {
    if hand + k < n then hand + k else hand + k - n
  }

  lemma NextTurn(hand: nat, k: nat, n: nat)
    requires hand < n && k < n
    ensures (Turn(hand, k, n) + 1) % n == Turn(hand, k + 1, n)
  {
    if Turn(hand, k, n) + 1 == n { QuotientUnique(n, n, 1, 0); }
  }

  /** The slots that the hand has come to. */
  ghost predicate Visited(hand: nat, k: nat, n: nat, i: nat)
    requires hand < n
  {
    (hand <= i < hand + k) || i + n < hand + k
  }

  /** The hand has passed k slots, all recently used; now they count as old. */
  ghost predicate Passed(infos0: seq<Info>, infos: seq<Info>, hand: nat, k: nat) {
    && |infos| == |infos0| && hand < |infos| && k <= |infos|
    && forall i: nat :: i < |infos| ==> PassedAt(infos0, infos, hand, k, i)
  }

  ghost predicate PassedAt(infos0: seq<Info>, infos: seq<Info>, hand: nat, k: nat, i: nat)
    requires i < |infos| == |infos0| && hand < |infos|
  {
    if Visited(hand, k, |infos|, i) then infos0[i].status.New? && infos[i] == infos0[i].(status := Old) else infos[i] == infos0[i]
  }

  lemma PassOne(infos0: seq<Info>, infos: seq<Info>, hand: nat, k: nat)
    requires Passed(infos0, infos, hand, k) && k < |infos| && infos[Turn(hand, k, |infos|)].status.New?
    ensures var i := Turn(hand, k, |infos|); Passed(infos0, infos[i := infos[i].(status := Old)], hand, k + 1)
  {
    var i := Turn(hand, k, |infos|);
    var infos', passed := infos[i := infos[i].(status := Old)], k + 1;
    forall j: nat | j < |infos'| ensures PassedAt(infos0, infos', hand, passed, j) {
      assert PassedAt(infos0, infos, hand, k, j);
    }
  }

  /** The slot that is reused: the first from the hand on that has not been used recently, or the
      hand's own if all have. */
  ghost predicate Victim(infos: seq<Info>, hand: nat, v: nat)
    requires hand < |infos|
  {
    && v < |infos|
    && (forall j: nat :: j < |infos| && Before(hand, v, |infos|, j) ==> infos[j].status.New?)
    && (infos[v].status.New? ==> v == hand && forall j :: 0 <= j < |infos| ==> infos[j].status.New?)
  }

  /** The hand comes to j before it comes to v. */
  ghost predicate Before(hand: nat, v: nat, n: nat, j: nat) {
    if v >= hand then hand <= j < v else j >= hand || j < v
  }

  lemma VictimFound(infos0: seq<Info>, infos: seq<Info>, hand: nat, k: nat)
    requires Passed(infos0, infos, hand, k) && !infos[Turn(hand, k, |infos|)].status.New?
    ensures Victim(infos0, hand, Turn(hand, k, |infos|))
  {
    var v := Turn(hand, k, |infos|);
    forall j: nat | j < |infos| && Before(hand, v, |infos|, j) ensures infos0[j].status.New? {
      assert PassedAt(infos0, infos, hand, k, j);
    }
    forall j: nat | j < |infos| && k == |infos| ensures infos0[j].status.New? {
      assert PassedAt(infos0, infos, hand, k, j);
    }
    assert PassedAt(infos0, infos, hand, k, v);
  }

  /** Once round, the hand finds an old slot. */
  lemma Wrapped(infos0: seq<Info>, infos: seq<Info>, hand: nat, k: nat)
    requires Passed(infos0, infos, hand, k) && infos[Turn(hand, k, |infos|)].status.New?
    ensures k < |infos|
  {
    assert PassedAt(infos0, infos, hand, k, Turn(hand, k, |infos|));
  }

  /** A victim's slot is written back if it must be, and then takes another block. */
  lemma Replaced(infos: seq<Info>, blocks: seq<Block>, files: seq<seq<Block>>, v: nat, info: Info, blk: Block)
    requires Coherent(infos, blocks, files) && v < |infos| && !info.status.Empty?
    requires Find(infos, info.ino, info.off, 0) < 0
    requires !info.dirty && InRange(files, info.ino, info.off) ==> blk == files[info.ino][info.off]
    ensures var infos', blocks', files' := infos[v := info], blocks[v := blk], Evicted(infos, blocks, files, v);
      && Coherent(infos', blocks', files') && Find(infos', info.ino, info.off, 0) == v && SameShape(files', files)
      && Merged(infos', blocks', files') == PutBlock(Merged(infos, blocks, files), info.ino, info.off, blk)
  {
    var e, files' := infos[v], Evicted(infos, blocks, files, v);
    var infos1 := if e.status.Empty? || !e.dirty then infos else infos[v := e.(dirty := false)];
    if !e.status.Empty? && e.dirty { WrittenBack(infos, blocks, files, v); }
    assert CleanOk(infos1, blocks, files', v);
    var infos2 := infos1[v := infos1[v].(status := Empty)];
    Dropped(infos1, blocks, files', v);
    forall ino: nat, off: nat | InRange(files', ino, off)
      ensures BlockOf(infos2, blocks, files', ino, off) == Merged(infos1, blocks, files')[ino][off] {
      if Hit(infos1[v], ino, off) { FindOnly(infos1, ino, off, v); }
    }
    MergedIs(infos2, blocks, files', Merged(infos1, blocks, files'));
    FindSame(infos, infos1, info.ino, info.off, 0);
    Filled(infos2, blocks, files', v, info, blk);
    assert infos2[v := info] == infos[v := info];
  }

  /** The store below after a victim has been written back. */
  function Evicted(infos: seq<Info>, blocks: seq<Block>, files: seq<seq<Block>>, v: nat): seq<seq<Block>>
    requires v < |infos| == |blocks|
  {
    if infos[v].status.Empty? || !infos[v].dirty then files else PutBlock(files, infos[v].ino, infos[v].off, blocks[v])
  }

  /** The store below has changed by no more than the write-back of a victim. */
  ghost predicate WroteBack(infos: seq<Info>, blocks: seq<Block>, hand: nat, files: seq<seq<Block>>,
          files': seq<seq<Block>>)
    requires hand < |infos| == |blocks|
  {
    exists v: nat :: Victim(infos, hand, v) && files' == Evicted(infos, blocks, files, v)
  }

  lemma PutSame(s: seq<seq<Block>>, ino: nat, off: nat, blk: Block)
    requires InRange(s, ino, off) ==> s[ino][off] == blk
    ensures PutBlock(s, ino, off, blk) == s
  {
    if InRange(s, ino, off) { assert s[ino][off := blk] == s[ino]; }
  }

  /** Only the slots' ages differ. */
  ghost predicate AgedOnly(infos: seq<Info>, infos': seq<Info>) {
    |infos'| == |infos| && forall i :: 0 <= i < |infos| ==> infos'[i].(status := New) == infos[i].(status := New)
  }

  lemma PassedAged(infos0: seq<Info>, infos: seq<Info>, hand: nat, k: nat)
    requires Passed(infos0, infos, hand, k)
    ensures AgedOnly(infos0, infos)
    ensures forall i :: 0 <= i < |infos| ==> (infos0[i].status.Empty? <==> infos[i].status.Empty?)
  {
    forall i: nat | i < |infos|
      ensures infos[i].(status := New) == infos0[i].(status := New) && (infos0[i].status.Empty? <==> infos[i].status.Empty?) {
      assert PassedAt(infos0, infos, hand, k, i);
    }
  }

  lemma PassedNone(infos: seq<Info>, hand: nat)
    requires hand < |infos|
    ensures Passed(infos, infos, hand, 0)
  {
  }

  class Clock {
    const below: Files
    const infos: array<Info>
    const blocks: array<Block>
    var hand: nat

    ghost predicate Valid()
      reads this, below, infos, blocks
    {
      && infos.Length == blocks.Length > 0 && hand < infos.Length
      && Coherent(infos[..], blocks[..], below.files)
    }

    /** What the cache and the store below hold together. */
    ghost function Contents(): (s: seq<seq<Block>>)
      reads this, below, infos, blocks
      requires infos.Length == blocks.Length
      ensures SameShape(s, below.files)
    {
      Merged(infos[..], blocks[..], below.files)
    }

    /** clockdisk_init, with memory for n blocks */
    constructor (below: Files, n: nat)
      requires n > 0
      ensures Valid() && fresh(infos) && fresh(blocks) && this.below == below && infos.Length == n
      ensures Contents() == below.files && hand == 0 && forall i :: 0 <= i < n ==> infos[i].status.Empty?
    {
      this.below := below;
      infos := new Info[n](_ => Info(Empty, false, 0, 0));
      blocks := new Block[n](_ => []);
      hand := 0;
      new;
      forall ino: nat, off: nat | InRange(below.files, ino, off) ensures BlockOf(infos[..], blocks[..], below.files, ino, off) == below.files[ino][off] {
        FindIs(infos[..], ino, off, 0);
      }
      MergedIs(infos[..], blocks[..], below.files, below.files);
    }

    /** The scan of read and write for a block. */
    method Lookup(ino: Word, off: Word) returns (i: int)
      ensures i == Find(infos[..], ino, off, 0)
    {
      var k := 0;
      while k < infos.Length
        invariant k <= infos.Length && Find(infos[..], ino, off, 0) == Find(infos[..], ino, off, k)
      {
        if !infos[k].status.Empty? && infos[k].ino == ino && infos[k].off == off { return k; }
        k := k + 1;
      }
      i := -1;
    }

    /** cache_update: a block that is in no slot gets one. Of the slots not used since the hand last
        passed, the first from the hand on is reused; it is written back if need be. */
    method CacheUpdate(ino: Word, off: Word, blk: Block, dirty: bool) returns (ghost v: nat)
      requires Valid() && Find(infos[..], ino, off, 0) < 0
      requires !dirty && InRange(below.files, ino, off) ==> blk == below.files[ino][off]
      modifies this, below, infos, blocks
      ensures Valid() && SameShape(below.files, old(below.files))
      ensures Contents() == PutBlock(old(Contents()), ino, off, blk)
      ensures Victim(old(infos[..]), old(hand), v) && hand == (v + 1) % infos.Length
      ensures Find(infos[..], ino, off, 0) == v && infos[v] == Info(New, dirty, ino, off)
      ensures AgedOnly(old(infos[..])[v := infos[v]], infos[..]) && blocks[..] == old(blocks[..])[v := blk]
      ensures below.files == Evicted(old(infos[..]), old(blocks[..]), old(below.files), v)
    {
      hide Coherent, Merged, Find, Passed, Victim, AgedOnly, SameShape, Evicted;
      ghost var n, infos0, hand0, blocks0 := infos.Length, infos[..], hand, blocks[..];
      ghost var k: nat := 0;
      PassedNone(infos[..], hand);
      while infos[hand].status.New?
        invariant k <= n && hand0 < n && hand == Turn(hand0, k, n) < n && |infos[..]| == |infos0|
        invariant Passed(infos0, infos[..], hand0, k) && Coherent(infos[..], blocks[..], below.files)
        invariant Merged(infos[..], blocks[..], below.files) == old(Contents()) && Find(infos[..], ino, off, 0) < 0
        invariant blocks[..] == blocks0 && below.files == old(below.files)
        decreases n - k
      {
        ghost var was := infos[..];
        Wrapped(infos0, was, hand0, k);
        PassOne(infos0, was, hand0, k);
        AgedSame(was, was[hand := was[hand].(status := Old)], blocks[..], below.files, hand, Old);
        infos[hand] := infos[hand].(status := Old);
        assert infos[..] == was[hand := was[hand].(status := Old)];
        NextTurn(hand0, k, n);
        hand := (hand + 1) % infos.Length;
        k := k + 1;
      }
      v := hand;
      VictimFound(infos0, infos[..], hand0, k);
      PassedAged(infos0, infos[..], hand0, k);
      ghost var was, files := infos[..], below.files;
      Replaced(was, blocks0, files, hand, Info(New, dirty, ino, off), blk);
      EvictedAged(infos0, was, blocks0, files, hand);
      AgedThere(infos0, was, hand, Info(New, dirty, ino, off));
      if !infos[hand].status.Empty? && infos[hand].dirty {
        var _ := below.Write(infos[hand].ino, infos[hand].off, blocks[hand]);
      }
      EvictedIs(was, blocks0, files, hand);
      infos[hand] := Info(New, dirty, ino, off);
      blocks[hand] := blk;
      assert infos[..] == was[hand := Info(New, dirty, ino, off)] && blocks[..] == blocks0[hand := blk];
      hand := (hand + 1) % infos.Length;
    }

    method Read(ino: Word, off: Word) returns (ok: bool, blk: Block)
      requires Valid()
      modifies this, below, infos, blocks
      ensures Valid() && SameShape(below.files, old(below.files))
      ensures ok <==> InRange(old(below.files), ino, off) || Find(old(infos[..]), ino, off, 0) >= 0
      ensures InRange(old(below.files), ino, off) ==> blk == old(Contents())[ino][off]
      ensures Contents() == old(Contents())
      ensures ok ==> Find(infos[..], ino, off, 0) >= 0
      ensures if Find(old(infos[..]), ino, off, 0) >= 0 || !ok then below.files == old(below.files)
              else WroteBack(old(infos[..]), old(blocks[..]), old(hand), old(below.files), below.files)
    {
      hide Coherent, Merged, Find, AgedOnly, Victim, SameShape, Evicted;
      ContentAt(infos[..], blocks[..], below.files, ino, off);
      SameShapeItself(below.files);
      var i := Lookup(ino, off);
      if i >= 0 {
        FindIs(infos[..], ino, off, 0);
        blk := blocks[i];
        ghost var was := infos[..];
        AgedSame(was, was[i := was[i].(status := New)], blocks[..], below.files, i, New);
        infos[i] := infos[i].(status := New);
        assert infos[..] == was[i := was[i].(status := New)];
        return true, blk;
      }
      ok, blk := below.Read(ino, off);
      if !ok { return; }
      PutSame(Contents(), ino, off, blk);
      ghost var v := CacheUpdate(ino, off, blk, false);
    }

    method Write(ino: Word, off: Word, blk: Block)
      requires Valid()
      modifies this, below, infos, blocks
      ensures Valid() && SameShape(below.files, old(below.files))
      ensures Contents() == PutBlock(old(Contents()), ino, off, blk)
      ensures Find(infos[..], ino, off, 0) >= 0
      ensures if Find(old(infos[..]), ino, off, 0) >= 0 then below.files == old(below.files)
              else WroteBack(old(infos[..]), old(blocks[..]), old(hand), old(below.files), below.files)
    {
      hide Coherent, Merged, Find, AgedOnly, Victim, SameShape, Evicted;
      SameShapeItself(below.files);
      var i := Lookup(ino, off);
      if i >= 0 {
        FindIs(infos[..], ino, off, 0);
        ghost var was, blocks0 := infos[..], blocks[..];
        Overwritten(was, blocks0, below.files, i, blk);
        StillFound(was[i := was[i].(status := New, dirty := true)], ino, off, i);
        blocks[i] := blk;
        infos[i] := infos[i].(status := New, dirty := true);
        assert infos[..] == was[i := was[i].(status := New, dirty := true)] && blocks[..] == blocks0[i := blk];
      } else {
        ghost var v := CacheUpdate(ino, off, blk, true);
      }
    }

    /** clockdisk_sync, of one file, or of all for the largest inode number */
    method Sync(ino: Word)
      requires Valid()
      modifies below, infos
      ensures Valid() && SameShape(below.files, old(below.files))
      ensures Contents() == old(Contents())
      ensures forall i: nat, o: nat :: InRange(below.files, i, o) && Selected(ino, i) ==> below.files[i][o] == Contents()[i][o]
      ensures ino == ALL ==> below.files == Contents()
      ensures Drifted(old(Contents()), old(below.files), below.files, ino)
    {
      hide Coherent, Merged, SameShape, Selected, Drifted;
      ghost var s := Contents();
      SameShapeItself(below.files);
      DriftedItself(s, below.files, ino);
      var i := 0;
      while i < infos.Length
        invariant i <= infos.Length && Coherent(infos[..], blocks[..], below.files)
        invariant Merged(infos[..], blocks[..], below.files) == s && SameShape(below.files, old(below.files))
        invariant forall j :: 0 <= j < i ==> CleanIf(ino, infos[j])
        invariant Drifted(s, old(below.files), below.files, ino)
      {
        ghost var was, files := infos[..], below.files;
        if !infos[i].status.Empty? && infos[i].dirty && (infos[i].ino == ino || ino == ALL) {
          WrittenBack(was, blocks[..], files, i);
          SelectedIs(ino, infos[i].ino);
          DriftedOn(was, blocks[..], old(below.files), files, ino, i);
          var _ := below.Write(infos[i].ino, infos[i].off, blocks[i]);
          infos[i] := infos[i].(dirty := false);
          assert infos[..] == was[i := was[i].(dirty := false)];
          SameShapeTwice(below.files, files, old(below.files));
        }
        SelectedIs(ino, infos[i].ino);
        i := i + 1;
      }
      AllClean(infos[..], blocks[..], below.files, ino);
    }

    /** clockdisk_setsize: blocks beyond the new end are dropped from the cache, and then the store
        below is asked. If that refuses, they are as they are below. */
    method SetSize(ino: Word, n: Word) returns (r: int)
      requires Valid()
      modifies below, infos
      ensures Valid()
      ensures r == if Cuts(old(below.files), below.shrinks, ino, n) then |old(below.files)[ino]| else -1
      ensures Cuts(old(below.files), below.shrinks, ino, n) ==>
        && ino < |old(Contents())| && n <= |old(Contents())[ino]|
        && Contents() == old(Contents())[ino := old(Contents())[ino][..n]]
        && below.files == old(below.files)[ino := old(below.files)[ino][..n]]
      ensures !Cuts(old(below.files), below.shrinks, ino, n) ==>
        below.files == old(below.files) && Contents() == Reverted(old(Contents()), below.files, ino, n)
      ensures !Cuts(old(below.files), below.shrinks, ino, n) ==>
        (Contents() != old(Contents()) <==> exists i ::
           0 <= i < |old(infos[..])| && Newer(old(infos[..])[i], old(blocks[..])[i], below.files, ino, n))
    {
      hide Coherent, Merged, SameShape, Reverted, Gone, Newer;
      ghost var s, files, infos0 := Contents(), below.files, infos[..];
      NoneGone(infos0, blocks[..], files, ino, n);
      var i := 0;
      while i < infos.Length
        invariant i <= infos.Length && below.files == files && Coherent(infos[..], blocks[..], files)
        invariant Gone(infos0, infos[..], blocks[..], files, ino, n, i)
      {
        ghost var was := infos[..];
        if !infos[i].status.Empty? && infos[i].ino == ino && infos[i].off >= n {
          Dropped(was, blocks[..], files, i);
          infos[i] := infos[i].(status := Empty);
          assert infos[..] == was[i := was[i].(status := Empty)];
          GoneOne(infos0, was, blocks[..], files, ino, n, i);
        } else {
          NotGone(infos0, was, blocks[..], files, ino, n, i);
        }
        i := i + 1;
      }
      AllGone(infos0, infos[..], blocks[..], files, ino, n);
      RefusedLoses(infos0, blocks[..], files, ino, n);
      r := below.SetSize(ino, n);
      if Cuts(files, below.shrinks, ino, n) { CutBelow(infos[..], blocks[..], files, s, ino, n); }
    }
  }

  const ALL: Word := TWO32 - 1

  predicate Selected(ino: nat, i: nat) {
    i == ino || ino == ALL
  }

  lemma SelectedIs(ino: nat, i: nat)
    ensures Selected(ino, i) <==> i == ino || ino == ALL
  {
  }

  /** What is below stays, but for blocks of the selected files that are written back from contents s. */
  ghost predicate Drifted(s: seq<seq<Block>>, files: seq<seq<Block>>, files': seq<seq<Block>>, ino: nat) {
    && SameShape(files', files) && SameShape(s, files)
    && forall i: nat, o: nat :: InRange(files', i, o) ==> BlockDrifted(s, files, files', ino, i, o)
  }

  predicate BlockDrifted(s: seq<seq<Block>>, files: seq<seq<Block>>, files': seq<seq<Block>>, ino: nat, i: nat, o: nat)
    requires InRange(files', i, o)
  {
    && InRange(files, i, o) && InRange(s, i, o)
    && (files'[i][o] == files[i][o] || (Selected(ino, i) && files'[i][o] == s[i][o]))
  }

  lemma DriftedItself(s: seq<seq<Block>>, files: seq<seq<Block>>, ino: nat)
    requires SameShape(s, files)
    ensures Drifted(s, files, files, ino)
  {
  }

  /** Slot i is written back. */
  lemma DriftedOn(infos: seq<Info>, blocks: seq<Block>, files0: seq<seq<Block>>, files: seq<seq<Block>>, ino: nat, i: nat)
    requires Coherent(infos, blocks, files) && i < |infos| && !infos[i].status.Empty? && Selected(ino, infos[i].ino)
    requires Drifted(Merged(infos, blocks, files), files0, files, ino)
    ensures Drifted(Merged(infos, blocks, files), files0, PutBlock(files, infos[i].ino, infos[i].off, blocks[i]), ino)
  {
    hide Find;
    var s, p, q := Merged(infos, blocks, files), infos[i].ino, infos[i].off;
    var files' := PutBlock(files, p, q, blocks[i]);
    if InRange(files, p, q) {
      FindOnly(infos, p, q, i);
      assert s[p][q] == BlockOf(infos, blocks, files, p, q);
    }
    forall j: nat, o: nat | InRange(files', j, o) ensures BlockDrifted(s, files0, files', ino, j, o) {
      assert BlockDrifted(s, files0, files, ino, j, o);
    }
  }

  /** So it is when a slot is evicted. */
  lemma EvictedDrifts(infos: seq<Info>, blocks: seq<Block>, hand: nat, files: seq<seq<Block>>, files': seq<seq<Block>>)
    requires Coherent(infos, blocks, files) && hand < |infos| && WroteBack(infos, blocks, hand, files, files')
    ensures Drifted(Merged(infos, blocks, files), files, files', ALL)
  {
    hide Coherent, Merged, Drifted;
    CoherentParts(infos, blocks, files);
    var v: nat :| Victim(infos, hand, v) && files' == Evicted(infos, blocks, files, v);
    DriftedItself(Merged(infos, blocks, files), files, ALL);
    if !infos[v].status.Empty? { DriftedOn(infos, blocks, files, files, ALL, v); }
  }

  lemma CoherentParts(infos: seq<Info>, blocks: seq<Block>, files: seq<seq<Block>>)
    requires Coherent(infos, blocks, files)
    ensures |infos| == |blocks| > 0
  {
  }

  predicate CleanIf(ino: nat, info: Info) {
    !info.status.Empty? && Selected(ino, info.ino) ==> !info.dirty
  }

  lemma SameShapeTwice(s: seq<seq<Block>>, t: seq<seq<Block>>, u: seq<seq<Block>>)
    requires SameShape(s, t) && SameShape(t, u)
    ensures SameShape(s, u)
  {
  }

  lemma AllClean(infos: seq<Info>, blocks: seq<Block>, files: seq<seq<Block>>, ino: nat)
    requires Coherent(infos, blocks, files) && forall j :: 0 <= j < |infos| ==> CleanIf(ino, infos[j])
    ensures var s := Merged(infos, blocks, files);
      && (forall i: nat, o: nat :: InRange(files, i, o) && Selected(ino, i) ==> files[i][o] == s[i][o])
      && (ino == ALL ==> files == s)
  {
    var s := Merged(infos, blocks, files);
    forall i: nat, o: nat | InRange(files, i, o) && Selected(ino, i) ensures files[i][o] == s[i][o] {
      FindIs(infos, i, o, 0);
      var j := Find(infos, i, o, 0);
      if j >= 0 { assert CleanOk(infos, blocks, files, j) && CleanIf(ino, infos[j]); }
    }
    if ino == ALL { EqualFiles(files, s); }
  }

  /** Blocks of a file from n on are those of the store below. */
  ghost function Reverted(s: seq<seq<Block>>, files: seq<seq<Block>>, ino: nat, n: nat): (t: seq<seq<Block>>)
    requires SameShape(s, files)
    ensures SameShape(t, files)
  {
    seq(|s|, i requires 0 <= i < |s| => if i == ino && n <= |s[i]| then s[i][..n] + files[i][n..] else s[i])
  }

  /** Taking blocks from below changes nothing exactly if they are the same there. */
  lemma RevertedSame(s: seq<seq<Block>>, files: seq<seq<Block>>, ino: nat, n: nat)
    requires SameShape(s, files)
    ensures Reverted(s, files, ino, n) == s <==> forall o: nat :: n <= o && InRange(files, ino, o) ==> s[ino][o] == files[ino][o]
  {
    var t := Reverted(s, files, ino, n);
    if t == s {
      forall o: nat | n <= o && InRange(files, ino, o) ensures s[ino][o] == files[ino][o] {
        assert t[ino][o] == files[ino][o];
      }
    } else if forall o: nat :: n <= o && InRange(files, ino, o) ==> s[ino][o] == files[ino][o] {
      forall i: nat, o: nat | InRange(t, i, o) ensures t[i][o] == s[i][o] {
        assert i == ino && n <= o ==> InRange(files, ino, o);
      }
      EqualFiles(t, s);
    }
  }

  /** A slot past the end n of file ino whose block is newer than that below */
  predicate Newer(info: Info, blk: Block, files: seq<seq<Block>>, ino: nat, n: nat) {
    Cut(info, ino, n) && info.dirty && InRange(files, ino, info.off) && blk != files[ino][info.off]
  }

  /** A refused change of size loses something exactly if some slot it drops has a block newer than that below. */
  lemma RefusedLoses(infos: seq<Info>, blocks: seq<Block>, files: seq<seq<Block>>, ino: nat, n: nat)
    requires Coherent(infos, blocks, files)
    ensures SameShape(Merged(infos, blocks, files), files)
    ensures Reverted(Merged(infos, blocks, files), files, ino, n) != Merged(infos, blocks, files) <==>
      exists i :: 0 <= i < |infos| && Newer(infos[i], blocks[i], files, ino, n)
  {
    hide Reverted, Find;
    var s := Merged(infos, blocks, files);
    RevertedSame(s, files, ino, n);
    forall i | 0 <= i < |infos| && Newer(infos[i], blocks[i], files, ino, n)
      ensures s[ino][infos[i].off] != files[ino][infos[i].off]
    {
      FindOnly(infos, ino, infos[i].off, i);
      assert s[ino][infos[i].off] == BlockOf(infos, blocks, files, ino, infos[i].off);
    }
    forall o: nat | n <= o && InRange(files, ino, o) && s[ino][o] != files[ino][o]
      ensures exists i :: 0 <= i < |infos| && Newer(infos[i], blocks[i], files, ino, n)
    {
      FindIs(infos, ino, o, 0);
      var i := Find(infos, ino, o, 0);
      assert s[ino][o] == BlockOf(infos, blocks, files, ino, o);
      if i >= 0 { assert CleanOk(infos, blocks, files, i); }
    }
  }

  /** Slots below i no longer hold blocks of the file from n on; all other blocks are as they were. */
  ghost predicate Gone(infos0: seq<Info>, infos: seq<Info>, blocks: seq<Block>, files: seq<seq<Block>>, ino: nat,
          n: nat, i: nat) {
    && |infos0| == |infos| == |blocks| && i <= |infos|
    && (forall j :: 0 <= j < i ==> !Cut(infos[j], ino, n))
    && forall x: nat, o: nat :: InRange(files, x, o) ==>
         BlockOf(infos, blocks, files, x, o) == if x == ino && o >= n && Find(infos, x, o, 0) < 0 then files[x][o] else BlockOf(infos0, blocks, files, x, o)
  }

  predicate Cut(info: Info, ino: nat, n: nat) {
    !info.status.Empty? && info.ino == ino && info.off >= n
  }

  lemma NoneGone(infos: seq<Info>, blocks: seq<Block>, files: seq<seq<Block>>, ino: nat, n: nat)
    requires |infos| == |blocks|
    ensures Gone(infos, infos, blocks, files, ino, n, 0)
  {
  }

  lemma GoneOne(infos0: seq<Info>, infos: seq<Info>, blocks: seq<Block>, files: seq<seq<Block>>, ino: nat, n: nat,
          i: nat)
    requires Coherent(infos, blocks, files) && Gone(infos0, infos, blocks, files, ino, n, i) && i < |infos|
    requires Cut(infos[i], ino, n)
    ensures Gone(infos0, infos[i := infos[i].(status := Empty)], blocks, files, ino, n, i + 1)
  {
    hide Coherent, BlockOf;
    Dropped(infos, blocks, files, i);
  }

  lemma NotGone(infos0: seq<Info>, infos: seq<Info>, blocks: seq<Block>, files: seq<seq<Block>>, ino: nat, n: nat,
          i: nat)
    requires Gone(infos0, infos, blocks, files, ino, n, i) && i < |infos| && !Cut(infos[i], ino, n)
    ensures Gone(infos0, infos, blocks, files, ino, n, i + 1)
  {
  }

  lemma AllGone(infos0: seq<Info>, infos: seq<Info>, blocks: seq<Block>, files: seq<seq<Block>>, ino: nat, n: nat)
    requires Gone(infos0, infos, blocks, files, ino, n, |infos|)
    ensures Merged(infos, blocks, files) == Reverted(Merged(infos0, blocks, files), files, ino, n)
    ensures forall o: nat :: o >= n ==> Find(infos, ino, o, 0) < 0
  {
    forall o: nat | o >= n ensures Find(infos, ino, o, 0) < 0 {
      FindIs(infos, ino, o, 0);
    }
    MergedIs(infos, blocks, files, Reverted(Merged(infos0, blocks, files), files, ino, n));
  }

  lemma CutBelow(infos: seq<Info>, blocks: seq<Block>, files: seq<seq<Block>>, s: seq<seq<Block>>, ino: nat, n: nat)
    requires Coherent(infos, blocks, files) && ino < |files| && n <= |files[ino]| && SameShape(s, files)
    requires Merged(infos, blocks, files) == Reverted(s, files, ino, n)
    ensures ino < |s| && n <= |s[ino]|
    ensures var files' := files[ino := files[ino][..n]];
      Coherent(infos, blocks, files') && Merged(infos, blocks, files') == s[ino := s[ino][..n]]
  {
    var files', t := files[ino := files[ino][..n]], s[ino := s[ino][..n]];
    forall j: nat ensures CleanOk(infos, blocks, files', j) {
      assert CleanOk(infos, blocks, files, j);
    }
    forall i: nat, o: nat | InRange(files', i, o) ensures BlockOf(infos, blocks, files', i, o) == t[i][o] {
      assert InRange(files, i, o);
      assert Reverted(s, files, ino, n)[i][o] == BlockOf(infos, blocks, files, i, o);
    }
    MergedIs(infos, blocks, files', t);
  }

  lemma SameShapeItself(s: seq<seq<Block>>)
    ensures SameShape(s, s)
  {
  }

  lemma StillFound(infos': seq<Info>, ino: nat, off: nat, i: nat)
    requires i < |infos'| && Hit(infos'[i], ino, off)
    ensures Find(infos', ino, off, 0) >= 0
  {
    FindIs(infos', ino, off, 0);
  }

  lemma ContentAt(infos: seq<Info>, blocks: seq<Block>, files: seq<seq<Block>>, ino: nat, off: nat)
    requires |infos| == |blocks|
    ensures InRange(files, ino, off) ==> InRange(Merged(infos, blocks, files), ino, off)
    ensures InRange(files, ino, off) ==>
      Merged(infos, blocks, files)[ino][off] == if Find(infos, ino, off, 0) >= 0 then blocks[Find(infos, ino, off, 0)] else files[ino][off]
  {
  }

  lemma EvictedAged(infos: seq<Info>, infos': seq<Info>, blocks: seq<Block>, files: seq<seq<Block>>, v: nat)
    requires AgedOnly(infos, infos') && v < |infos| == |blocks| && (infos[v].status.Empty? <==> infos'[v].status.Empty?)
    ensures Evicted(infos', blocks, files, v) == Evicted(infos, blocks, files, v)
  {
    assert infos'[v].(status := New) == infos[v].(status := New);
  }

  lemma AgedThere(infos: seq<Info>, infos': seq<Info>, v: nat, info: Info)
    requires AgedOnly(infos, infos') && v < |infos|
    ensures AgedOnly(infos[v := info], infos'[v := info])
  {
  }

  lemma EvictedIs(infos: seq<Info>, blocks: seq<Block>, files: seq<seq<Block>>, v: nat)
    requires v < |infos| == |blocks|
    ensures Evicted(infos, blocks, files, v) ==
      if infos[v].status.Empty? || !infos[v].dirty then files else PutBlock(files, infos[v].ino, infos[v].off, blocks[v])
  {
  }

  // ---- whole runs ----

  datatype Op =
    | Get(ino: Word, off: Word)
    | Set(ino: Word, off: Word, blk: Block)
    | Resize(ino: Word, n: Word)
    | Flush(ino: Word)

  /** Missing: no such block. */
  datatype Reply = Ok | Missing | Data(blk: Block) | Size(n: int)

  function After(s: seq<seq<Block>>, shrinks: bool, op: Op): seq<seq<Block>> {
    match op
    case Get(_, _) => s
    case Set(ino, off, blk) => PutBlock(s, ino, off, blk)
    case Resize(ino, n) => if Cuts(s, shrinks, ino, n) then s[ino := s[ino][..n]] else s
    case Flush(_) => s
  }

  /** Answers are those of the plain store; of blocks it does not have, nothing is said. */
  predicate AnswerOk(s: seq<seq<Block>>, shrinks: bool, op: Op, r: Reply) {
    match op
    case Get(ino, off) => InRange(s, ino, off) ==> r == Data(s[ino][off])
    case Resize(ino, n) => r == Size(if Cuts(s, shrinks, ino, n) then |s[ino]| else -1)
    case _ => r == Ok
  }

  function Final(s: seq<seq<Block>>, shrinks: bool, ops: seq<Op>): seq<seq<Block>> {
    if ops == [] then s else After(Final(s, shrinks, ops[..|ops| - 1]), shrinks, ops[|ops| - 1])
  }

  ghost predicate AllOk(s: seq<seq<Block>>, shrinks: bool, ops: seq<Op>, replies: seq<Reply>) {
    |replies| <= |ops| && forall j: nat :: j < |replies| ==> AnswerOk(Final(s, shrinks, ops[..j]), shrinks, ops[j], replies[j])
  }

  /** What the store holds, and what is below */
  datatype Moment = Moment(contents: seq<seq<Block>>, below: seq<seq<Block>>)

  /** A change of size that the store below refuses */
  predicate Refused(a: Moment, shrinks: bool, op: Op) {
    op.Resize? && !Cuts(a.below, shrinks, op.ino, op.n)
  }

  /** One operation: the contents change as those of the plain store, but that a refused change of size takes
      the blocks past the new end from below, where blocks come only from the contents. */
  ghost predicate StepOk(a: Moment, shrinks: bool, op: Op, r: Reply, b: Moment) {
    && SameShape(a.contents, a.below) && SameShape(b.contents, b.below) && AnswerOk(a.contents, shrinks, op, r)
    && b.contents == (if Refused(a, shrinks, op) then Reverted(a.contents, a.below, op.ino, op.n)
                      else After(a.contents, shrinks, op))
    && (if op.Resize? then
          b.below == if Refused(a, shrinks, op) then a.below else a.below[op.ino := a.below[op.ino][..op.n]]
        else
          Drifted(a.contents, a.below, b.below, if op.Flush? then op.ino else ALL))
  }

  ghost predicate StepAt(trace: seq<Moment>, shrinks: bool, ops: seq<Op>, replies: seq<Reply>, j: nat)
    requires j < |ops| && j < |replies| && j + 1 < |trace|
  {
    StepOk(trace[j], shrinks, ops[j], replies[j], trace[j + 1])
  }

  ghost predicate TraceOk(trace: seq<Moment>, shrinks: bool, ops: seq<Op>, replies: seq<Reply>) {
    && |trace| == |replies| + 1 && |replies| <= |ops|
    && forall j: nat :: j < |replies| ==> StepAt(trace, shrinks, ops, replies, j)
  }

  /** No refused change of size of a run loses anything. */
  ghost predicate NoneLost(trace: seq<Moment>, shrinks: bool, ops: seq<Op>) {
    forall j: nat :: j < |ops| && j < |trace| && Refused(trace[j], shrinks, ops[j]) ==>
      SameShape(trace[j].contents, trace[j].below)
      && Reverted(trace[j].contents, trace[j].below, ops[j].ino, ops[j].n) == trace[j].contents
  }

  /** Then it is a run of the plain store. */
  lemma {:induction false} PlainRun(trace: seq<Moment>, shrinks: bool, ops: seq<Op>, replies: seq<Reply>, k: nat)
    requires TraceOk(trace, shrinks, ops, replies) && NoneLost(trace, shrinks, ops) && k <= |replies|
    ensures trace[k].contents == Final(trace[0].contents, shrinks, ops[..k])
    ensures k < |replies| ==> AnswerOk(trace[k].contents, shrinks, ops[k], replies[k])
  {
    hide After, AnswerOk, Drifted, Reverted;
    if k > 0 {
      PlainRun(trace, shrinks, ops, replies, k - 1);
      assert StepAt(trace, shrinks, ops, replies, k - 1);
      FinalStep(trace[0].contents, shrinks, ops, k - 1);
      if Refused(trace[k - 1], shrinks, ops[k - 1]) { RefusedKeeps(trace[k - 1], shrinks, ops[k - 1]); }
    } else {
      FinalNone(trace[0].contents, shrinks);
      assert ops[..0] == [];
    }
    if k < |replies| { assert StepAt(trace, shrinks, ops, replies, k); }
  }

  lemma RefusedKeeps(a: Moment, shrinks: bool, op: Op)
    requires SameShape(a.contents, a.below) && Refused(a, shrinks, op)
    ensures After(a.contents, shrinks, op) == a.contents
  {
    ShapesAgree(a.contents, a.below);
  }

  ghost function MomentOf(c: Clock): Moment
    requires c.Valid()
    reads c, c.below, c.infos, c.blocks
  {
    Moment(c.Contents(), c.below.files)
  }

  method Serve(c: Clock, op: Op) returns (r: Reply)
    requires c.Valid()
    modifies c, c.below, c.infos, c.blocks
    ensures c.Valid() && StepOk(old(MomentOf(c)), c.below.shrinks, op, r, MomentOf(c))
  {
    hide Coherent, Merged, Find, Reverted, Drifted, Victim, WroteBack;
    ghost var s, files := c.Contents(), c.below.files;
    ShapesAgree(s, files);
    DriftedItself(s, files, ALL);
    match op
    case Get(ino, off) =>
      ghost var infos, blocks, hand := c.infos[..], c.blocks[..], c.hand;
      var ok, blk := c.Read(ino, off);
      r := if ok then Data(blk) else Missing;
      if c.below.files != files { EvictedDrifts(infos, blocks, hand, files, c.below.files); }
    case Set(ino, off, blk) =>
      ghost var infos, blocks, hand := c.infos[..], c.blocks[..], c.hand;
      c.Write(ino, off, blk);
      r := Ok;
      if c.below.files != files { EvictedDrifts(infos, blocks, hand, files, c.below.files); }
    case Resize(ino, n) =>
      var size := c.SetSize(ino, n);
      r := Size(size);
    case Flush(ino) =>
      c.Sync(ino);
      r := Ok;
  }

  lemma ShapesAgree(s: seq<seq<Block>>, files: seq<seq<Block>>)
    requires SameShape(s, files)
    ensures forall i: nat, o: nat :: InRange(s, i, o) <==> InRange(files, i, o)
    ensures forall shrinks: bool, i: nat, n: nat :: Cuts(s, shrinks, i, n) <==> Cuts(files, shrinks, i, n)
    ensures forall i: nat :: i < |s| ==> |s[i]| == |files[i]|
  {
  }

  /** Any run of reads, writes, changes of size and syncs, with any evictions in between: the contents change,
      and the replies are, as the operations say; a sync of all then leaves the store below with exactly the
      contents. If no refused change of size loses anything, all is as for the plain store. */
  method Run(below: Files, n: nat, ops: seq<Op>) returns (c: Clock, replies: seq<Reply>, ghost trace: seq<Moment>)
    requires n > 0
    modifies below
    ensures |replies| == |ops| && TraceOk(trace, below.shrinks, ops, replies)
    ensures trace[0] == Moment(old(below.files), old(below.files))
    ensures fresh(c) && c.Valid() && c.below == below && below.files == c.Contents() == trace[|ops|].contents
    ensures NoneLost(trace, below.shrinks, ops) ==>
      && AllOk(old(below.files), below.shrinks, ops, replies)
      && below.files == Final(old(below.files), below.shrinks, ops)
  {
    hide Coherent, Merged, After, AnswerOk, Final, StepOk, NoneLost;
    ghost var s0 := below.files;
    c := new Clock(below, n);
    replies, trace := [], [MomentOf(c)];
    while |replies| < |ops|
      invariant |replies| <= |ops| && fresh(c) && fresh(c.infos) && fresh(c.blocks) && c.below == below && c.Valid()
      invariant TraceOk(trace, below.shrinks, ops, replies) && trace[0] == Moment(s0, s0)
      invariant trace[|replies|] == MomentOf(c)
    {
      var r := Serve(c, ops[|replies|]);
      TraceLonger(trace, below.shrinks, ops, replies, r, MomentOf(c));
      replies, trace := replies + [r], trace + [MomentOf(c)];
    }
    assert ops[..|replies|] == ops;
    c.Sync(ALL);
    if NoneLost(trace, below.shrinks, ops) { PlainAll(trace, below.shrinks, ops, replies); }
  }

  lemma PlainAll(trace: seq<Moment>, shrinks: bool, ops: seq<Op>, replies: seq<Reply>)
    requires TraceOk(trace, shrinks, ops, replies) && NoneLost(trace, shrinks, ops) && |replies| == |ops|
    ensures AllOk(trace[0].contents, shrinks, ops, replies)
    ensures trace[|ops|].contents == Final(trace[0].contents, shrinks, ops)
  {
    hide After, AnswerOk, Final, StepOk, NoneLost;
    forall j: nat | j < |replies|
      ensures AnswerOk(Final(trace[0].contents, shrinks, ops[..j]), shrinks, ops[j], replies[j])
    {
      PlainRun(trace, shrinks, ops, replies, j);
    }
    PlainRun(trace, shrinks, ops, replies, |ops|);
    assert ops[..|ops|] == ops;
  }

  lemma TraceLonger(trace: seq<Moment>, shrinks: bool, ops: seq<Op>, replies: seq<Reply>, r: Reply, b: Moment)
    requires TraceOk(trace, shrinks, ops, replies) && |replies| < |ops|
    requires StepOk(trace[|replies|], shrinks, ops[|replies|], r, b)
    ensures TraceOk(trace + [b], shrinks, ops, replies + [r])
  {
    hide StepOk;
    forall j: nat | j < |replies + [r]| ensures StepAt(trace + [b], shrinks, ops, replies + [r], j) {
      if j < |replies| { assert StepAt(trace, shrinks, ops, replies, j); }
    }
  }

  lemma FinalNone(s: seq<seq<Block>>, shrinks: bool)
    ensures Final(s, shrinks, []) == s
  {
  }

  lemma FinalStep(s: seq<seq<Block>>, shrinks: bool, ops: seq<Op>, i: nat)
    requires i < |ops|
    ensures Final(s, shrinks, ops[..i + 1]) == After(Final(s, shrinks, ops[..i]), shrinks, ops[i])
  {
    assert ops[..i + 1][..i] == ops[..i];
  }

  /** A change of size that is refused, and still undoes a write. */
  method ResizeExample() returns (c: Clock, r: int)
    ensures fresh(c) && c.Valid() && r == -1 && c.below.files == [[[0]]] && c.Contents() == [[[0]]]
  {
    hide Coherent, Merged, Find;
    var below := new Files([[[0]]], false);
    c := new Clock(below, 1);
    FindIs(c.infos[..], 0, 0, 0);
    c.Write(0, 0, [1]);
    OneBlock([0], [1]);
    r := c.SetSize(0, 0);
  }

  lemma OneBlock(a: Block, b: Block)
    ensures PutBlock([[a]], 0, 0, b) == [[b]] && Reverted([[b]], [[a]], 0, 0) == [[a]]
  {
    var f, s, t := [a], [[a]], Reverted([[b]], [[a]], 0, 0);
    assert f[0 := b] == [b] && s[0 := [b]] == [[b]];
    assert t[0] == [[b]][0][..0] + [[a]][0][0..] == [a];
  }
}
