/** Files of bytes kept in files of blocks: the block file server. */
module ByteFiles {
  import opened Radix

  const BLOCK_SIZE: nat := 1024

  type Byte = b: int | 0 <= b < 256

  function Zeros(n: nat): (z: seq<Byte>)
    ensures |z| == n && forall i :: 0 <= i < n ==> z[i] == 0
  {
    seq(n, i => 0)
  }

  type Bytes = b: seq<Byte> | |b| == BLOCK_SIZE witness Zeros(BLOCK_SIZE)

  const ZEROS: Bytes := Zeros(BLOCK_SIZE)

  function Max(a: nat, b: nat): nat {
    if a < b then b else a
  }

  function Min(a: nat, b: nat): nat {
    if a < b then a else b
  }

  // ---- files of blocks ----

  /** Byte x of a file of blocks; past its end there are zeros. */
  function At(blocks: seq<Bytes>, x: nat): Byte {
    if x / BLOCK_SIZE < |blocks| then blocks[x / BLOCK_SIZE][x % BLOCK_SIZE] else 0
  }

  function Holes(n: nat): (h: seq<Bytes>)
    ensures |h| == n && forall i :: 0 <= i < n ==> h[i] == ZEROS
  {
    seq(n, i => ZEROS)
  }

  function Extended(blocks: seq<Bytes>, offset: nat, b: Bytes): (e: seq<Bytes>)
    ensures |e| == Max(|blocks|, offset + 1)
  {
    if offset < |blocks| then blocks[offset := b] else blocks + Holes(offset - |blocks|) + [b]
  }

  lemma AtExtended(blocks: seq<Bytes>, offset: nat, b: Bytes, x: nat)
    ensures At(Extended(blocks, offset, b), x)
      == if x / BLOCK_SIZE == offset then b[x % BLOCK_SIZE] else At(blocks, x)
  {
  }

  /** The store below, which cuts a file only to nothing. */
  class BlockStore {
    var files: seq<seq<Bytes>>

    constructor (n: nat)
      ensures files == seq(n, i => [])
    {
      files := seq(n, i => []);
    }

    method Read(ino: nat, offset: nat) returns (ok: bool, b: Bytes)
      requires ino < |files|
      ensures ok <==> offset < |files[ino]|
      ensures ok ==> b == files[ino][offset]
    {
      ok, b := offset < |files[ino]|, ZEROS;
      if ok { b := files[ino][offset]; }
    }

    method Write(ino: nat, offset: nat, b: Bytes)
      requires ino < |files|
      modifies this
      ensures files == old(files)[ino := Extended(old(files)[ino], offset, b)]
    {
      files := files[ino := Extended(files[ino], offset, b)];
    }

    method SetSize(ino: nat, n: nat) returns (ok: bool)
      requires ino < |files|
      modifies this
      ensures ok <==> n == |old(files)[ino]| || n == 0
      ensures files == old(files)[ino := if n == 0 then [] else old(files)[ino]]
    {
      if n == |files[ino]| { return true; }
      if n > 0 { return false; }
      files := files[ino := []];
      return true;
    }
  }

  /** Byte x of a buffer whose blocks from 0 to n were overwritten from byte at on */
  function Filled(blocks: seq<Bytes>, at: nat, n: nat, was: seq<Byte>, x: nat): Byte
    requires x < |was|
  {
    if x < n * BLOCK_SIZE then At(blocks, at * BLOCK_SIZE + x) else was[x]
  }

  method CopyBlock(addr: array<Byte>, at: nat, b: Bytes)
    requires at + BLOCK_SIZE <= addr.Length
    modifies addr
    ensures forall x :: 0 <= x < addr.Length ==>
      addr[x] == if at <= x < at + BLOCK_SIZE then b[x - at] else old(addr[x])
  {
    forall i | 0 <= i < BLOCK_SIZE { addr[at + i] := b[i]; }
  }

  /** multiblock_read: as many of the n blocks as there are; it fails if there is not one. */
  method MultiRead(svr: BlockStore, ino: nat, offset: nat, addr: array<Byte>, n: nat) returns (ok: bool, got: nat)
    requires ino < |svr.files| && n * BLOCK_SIZE <= addr.Length
    modifies addr
    ensures ok <==> n == 0 || offset < |svr.files[ino]|
    ensures got == if ok && n > 0 then Min(n, |svr.files[ino]| - offset) else n
    ensures forall x :: 0 <= x < addr.Length ==>
      addr[x] == Filled(svr.files[ino], offset, if ok then got else 0, old(addr[..]), x)
  {
    var i: nat := 0;
    ghost var was := addr[..];
    while i < n
      invariant i <= n && i + offset <= Max(offset, |svr.files[ino]|) && (i > 0 ==> offset < |svr.files[ino]|)
      invariant forall x :: 0 <= x < addr.Length ==> addr[x] == Filled(svr.files[ino], offset, i, was, x)
    {
      var r, b := svr.Read(ino, offset + i);
      if !r {
        if i == 0 { return false, n; }
        break;
      }
      ghost var before := addr[..];
      CopyBlock(addr, i * BLOCK_SIZE, b);
      OneMore(svr.files[ino], offset, i, was, before, b, addr[..]);
      i := i + 1;
    }
    return true, i;
  }

  lemma OneMore(blocks: seq<Bytes>, offset: nat, i: nat, was: seq<Byte>, before: seq<Byte>, b: Bytes, after: seq<Byte>)
    requires |was| == |before| == |after| && offset + i < |blocks| && blocks[offset + i] == b
    requires forall x :: 0 <= x < |was| ==> before[x] == Filled(blocks, offset, i, was, x)
    requires forall x :: 0 <= x < |was| ==>
      after[x] == if i * BLOCK_SIZE <= x < i * BLOCK_SIZE + BLOCK_SIZE then b[x - i * BLOCK_SIZE] else before[x]
    ensures forall x :: 0 <= x < |was| ==> after[x] == Filled(blocks, offset, i + 1, was, x)
  {
    forall x | 0 <= x < |was| ensures after[x] == Filled(blocks, offset, i + 1, was, x) {
      var y := offset * BLOCK_SIZE + x;
      if i * BLOCK_SIZE <= x < i * BLOCK_SIZE + BLOCK_SIZE {
        assert y / BLOCK_SIZE == offset + i && y % BLOCK_SIZE == x - i * BLOCK_SIZE;
      }
    }
  }

  /** The file after blocks from offset on took what is in a buffer */
  ghost predicate Wrote(was: seq<Bytes>, now: seq<Bytes>, offset: nat, n: nat, addr: seq<Byte>)
    requires n * BLOCK_SIZE <= |addr|
  {
    && |now| == (if n == 0 then |was| else Max(|was|, offset + n))
    && forall x: nat :: At(now, x) == WroteAt(was, offset, n, addr, x)
  }

  function WroteAt(was: seq<Bytes>, offset: nat, n: nat, addr: seq<Byte>, x: nat): Byte
    requires n * BLOCK_SIZE <= |addr|
  {
    if offset <= x / BLOCK_SIZE < offset + n then addr[x - offset * BLOCK_SIZE] else At(was, x)
  }

  /** multiblock_write */
  method MultiWrite(svr: BlockStore, ino: nat, offset: nat, addr: array<Byte>, n: nat)
    requires ino < |svr.files| && n * BLOCK_SIZE <= addr.Length
    modifies svr
    ensures |svr.files| == |old(svr.files)|
    ensures forall i :: 0 <= i < |svr.files| && i != ino ==> svr.files[i] == old(svr.files)[i]
    ensures Wrote(old(svr.files)[ino], svr.files[ino], offset, n, addr[..])
  {
    var i: nat := 0;
    while i < n
      invariant i <= n && |svr.files| == |old(svr.files)|
      invariant forall k :: 0 <= k < |svr.files| && k != ino ==> svr.files[k] == old(svr.files)[k]
      invariant Wrote(old(svr.files)[ino], svr.files[ino], offset, i, addr[..])
    {
      var b: Bytes := addr[i * BLOCK_SIZE..i * BLOCK_SIZE + BLOCK_SIZE];
      WroteOne(old(svr.files)[ino], svr.files[ino], offset, i, addr[..], b);
      svr.Write(ino, offset + i, b);
      i := i + 1;
    }
  }

  lemma WroteOne(was: seq<Bytes>, now: seq<Bytes>, offset: nat, i: nat, addr: seq<Byte>, b: Bytes)
    requires (i + 1) * BLOCK_SIZE <= |addr| && b == addr[i * BLOCK_SIZE..i * BLOCK_SIZE + BLOCK_SIZE]
    requires Wrote(was, now, offset, i, addr)
    ensures Wrote(was, Extended(now, offset + i, b), offset, i + 1, addr)
  {
    var e := Extended(now, offset + i, b);
    forall x: nat ensures At(e, x) == WroteAt(was, offset, i + 1, addr, x) {
      AtExtended(now, offset + i, b, x);
      if x / BLOCK_SIZE == offset + i {
        assert x - offset * BLOCK_SIZE == i * BLOCK_SIZE + x % BLOCK_SIZE;
        assert b[x % BLOCK_SIZE] == addr[i * BLOCK_SIZE + x % BLOCK_SIZE];
      } else {
        assert At(e, x) == At(now, x) == WroteAt(was, offset, i, addr, x);
      }
    }
  }

  // ---- files of bytes ----

  function ByteOf(data: seq<Byte>, x: nat): Byte {
    if x < |data| then data[x] else 0
  }

  function Segment(blocks: seq<Bytes>, offset: nat, n: nat): (s: seq<Byte>)
    ensures |s| == n && forall i :: 0 <= i < n ==> s[i] == At(blocks, offset + i)
  {
    if n == 0 then [] else Segment(blocks, offset, n - 1) + [At(blocks, offset + n - 1)]
  }

  /** The blocks a file of some size has, with zeros past its end */
  ghost predicate Sound(blocks: seq<Bytes>, size: nat) {
    && (|blocks| == size / BLOCK_SIZE + 1 || (size == 0 && blocks == []))
    && forall x: nat :: x >= size ==> At(blocks, x) == 0
  }

  /** A file after data was written at some offset: a gap is filled with zeros. */
  function Patched(d: seq<Byte>, offset: nat, data: seq<Byte>): (p: seq<Byte>)
    ensures |p| == Max(|d|, offset + |data|)
    ensures forall x :: 0 <= x < |p| ==> p[x] == PatchedAt(d, offset, data, x)
  {
    Extend(d, offset)[..offset] + data + (if offset + |data| < |d| then d[offset + |data|..] else [])
  }

  function PatchedAt(d: seq<Byte>, offset: nat, data: seq<Byte>, x: nat): Byte {
    if offset <= x < offset + |data| then data[x - offset] else ByteOf(d, x)
  }

  function Extend(d: seq<Byte>, n: nat): (e: seq<Byte>)
    ensures |e| == Max(|d|, n) && forall x :: 0 <= x < |e| ==> e[x] == ByteOf(d, x)
  {
    if n <= |d| then d else d + Zeros(n - |d|)
  }

  /** Byte x after a write: of the blocks written, only those up to the last of the old size keep their bytes. */
  function PutAt(blocks: seq<Bytes>, size: nat, offset: nat, data: seq<Byte>, x: nat): Byte {
    if offset <= x < offset + |data| then data[x - offset]
    else if offset / BLOCK_SIZE <= x / BLOCK_SIZE <= (offset + |data|) / BLOCK_SIZE && !Kept(size, x) then 0
    else At(blocks, x)
  }

  predicate Kept(size: nat, x: nat) {
    size != 0 && x / BLOCK_SIZE <= size / BLOCK_SIZE
  }

  ghost predicate Puts(was: seq<Bytes>, now: seq<Bytes>, size: nat, offset: nat, data: seq<Byte>) {
    && |now| == Max(|was|, (offset + |data|) / BLOCK_SIZE + 1)
    && forall x: nat :: At(now, x) == PutAt(was, size, offset, data, x)
  }

  /** A write needs its first block if that was part of the file. */
  predicate Puttable(blocks: seq<Bytes>, size: nat, offset: nat) {
    size != 0 && offset / BLOCK_SIZE <= size / BLOCK_SIZE ==> offset / BLOCK_SIZE < |blocks|
  }

  lemma PutPlain(was: seq<Bytes>, now: seq<Bytes>, size: nat, offset: nat, data: seq<Byte>)
    requires Sound(was, size) && Puts(was, now, size, offset, data)
    ensures Puttable(was, size, offset)
    ensures Sound(now, Max(size, offset + |data|))
    ensures Segment(now, 0, Max(size, offset + |data|)) == Patched(Segment(was, 0, size), offset, data)
  {
    var end, before := Max(size, offset + |data|), Segment(was, 0, size);
    forall x: nat ensures At(now, x) == PatchedAt(before, offset, data, x) {
      assert At(now, x) == PutAt(was, size, offset, data, x);
      assert ByteOf(before, x) == At(was, x);
    }
  }

  // ---- the server ----

  const LIMIT: nat := (TWO32 - 1) * BLOCK_SIZE

  datatype Fcb = Fcb(alloc: bool, uid: nat, mode: nat, size: nat)

  datatype Reply = Done(data: seq<Byte>) | Created(n: nat) | Failed

  /** The owner's bit of a mode is for the owner, the others' bit for others. */
  predicate Allowed(owner: nat, mode: nat, uid: nat, mine: nat, theirs: nat)
    requires mine > 0 && theirs > 0
  {
    uid == 0 || (mode / (if uid == owner then mine else theirs)) % 2 == 1
  }

  predicate ReadAllowed(owner: nat, mode: nat, uid: nat) {
    Allowed(owner, mode, uid, 4, 1)
  }

  predicate WriteAllowed(owner: nat, mode: nat, uid: nat) {
    Allowed(owner, mode, uid, 8, 2)
  }

  /** Who may do what with a file: the four bits of a mode, from the lowest on. Other bits mean nothing. */
  datatype Mode = Mode(othersRead: bool, othersWrite: bool, ownerRead: bool, ownerWrite: bool)

  function Bit(b: bool): nat {
    if b then 1 else 0
  }

  function ModeBits(m: Mode, more: nat): nat {
    Bit(m.othersRead) + 2 * Bit(m.othersWrite) + 4 * Bit(m.ownerRead) + 8 * Bit(m.ownerWrite) + 16 * more
  }

  /** The mode of a file if nothing else is said */
  const DEFAULT: nat := 13

  /** Reading takes the bit for reading of the owner, or of others, and no other; so does writing. The superuser
      may do everything. */
  lemma ModeSays(owner: nat, m: Mode, more: nat, uid: nat)
    ensures var mode := ModeBits(m, more);
      && (ReadAllowed(owner, mode, uid) <==> uid == 0 || (if uid == owner then m.ownerRead else m.othersRead))
      && (WriteAllowed(owner, mode, uid) <==> uid == 0 || (if uid == owner then m.ownerWrite else m.othersWrite))
  {
    BitOf(ModeBits(m, more));
    hide ModeBits;
    ModeParts(m, more);
  }

  lemma ModeParts(m: Mode, more: nat)
    ensures var mode := ModeBits(m, more);
      && mode % 2 == Bit(m.othersRead) && mode / 2 % 2 == Bit(m.othersWrite)
      && mode / 2 / 2 % 2 == Bit(m.ownerRead) && mode / 2 / 2 / 2 % 2 == Bit(m.ownerWrite)
  {
    var y3 := Bit(m.ownerWrite) + 2 * more;
    var y2 := Bit(m.ownerRead) + 2 * y3;
    var y1 := Bit(m.othersWrite) + 2 * y2;
    Half(m.othersRead, y1);
    Half(m.othersWrite, y2);
    Half(m.ownerRead, y3);
    Half(m.ownerWrite, more);
  }

  lemma Half(b: bool, y: nat)
    ensures (Bit(b) + 2 * y) % 2 == Bit(b) && (Bit(b) + 2 * y) / 2 == y
  {
  }

  lemma BitOf(mode: nat)
    ensures mode / 1 == mode && mode / 4 == mode / 2 / 2 && mode / 8 == mode / 2 / 2 / 2
  {
  }

  /** Every mode has such bits. With the default one, the owner reads and writes, and others only read. */
  lemma ModeHasBits(mode: nat) returns (m: Mode, more: nat)
    ensures mode == ModeBits(m, more)
    ensures mode == DEFAULT ==> m == Mode(true, false, true, true)
  {
    var y1, y2, y3 := mode / 2, mode / 2 / 2, mode / 2 / 2 / 2;
    m, more := Mode(mode % 2 == 1, y1 % 2 == 1, y2 % 2 == 1, y3 % 2 == 1), y3 / 2;
    assert y3 == Bit(m.ownerWrite) + 2 * more;
    assert y2 == Bit(m.ownerRead) + 2 * y3;
    assert y1 == Bit(m.othersWrite) + 2 * y2;
  }

  /** The first free file from n on */
  function FirstFree(fcbs: seq<Fcb>, n: nat): (r: nat)
    requires n <= |fcbs|
    ensures n <= r <= |fcbs| && (forall i :: n <= i < r ==> fcbs[i].alloc) && (r < |fcbs| ==> !fcbs[r].alloc)
    decreases |fcbs| - n
  {
    if n < |fcbs| && fcbs[n].alloc then FirstFree(fcbs, n + 1) else n
  }

  /** How many bytes a read gets: the rest of the file is counted in 32 bits. */
  function Count(size: nat, offset: nat, want: nat): nat {
    if offset < size then Min((size - offset) % TWO32, want) else 0
  }

  /** How many it should get */
  function Rest(size: nat, offset: nat, want: nat): nat {
    if offset < size then Min(size - offset, want) else 0
  }

  /** The rest of the file is not counted short. */
  predicate Countable(size: nat, offset: nat, want: nat) {
    offset >= size || size - offset < TWO32 || (size - offset) % TWO32 >= want
  }

  /** A read gets all it should exactly if the rest of the file is under 2^32 bytes, or is so modulo 2^32 no less
      than what is asked for. */
  lemma CountExact(size: nat, offset: nat, want: Word)
    ensures Count(size, offset, want) <= Rest(size, offset, want)
    ensures Count(size, offset, want) == Rest(size, offset, want) <==> Countable(size, offset, want)
  {
  }

  /** The blocks those bytes are in */
  function NeedBlocks(offset: nat, n: nat): (k: nat) {
    if n == 0 && offset % BLOCK_SIZE == 0 then 0 else (offset + n - 1) / BLOCK_SIZE - offset / BLOCK_SIZE + 1
  }

  predicate Readable(blocks: seq<Bytes>, size: nat, offset: nat, want: nat) {
    var k := NeedBlocks(offset, Count(size, offset, want));
    offset < size && k > 0 ==> offset / BLOCK_SIZE + k <= |blocks|
  }

  function ReadReply(blocks: seq<Bytes>, size: nat, offset: nat, want: nat): Reply {
    if want > 0 && !Readable(blocks, size, offset, want) then Failed
    else Done(Segment(blocks, offset, Count(size, offset, want)))
  }

  /** The count of blocks, in 32 bits, is right even for no bytes at the start. */
  lemma BlocksNeeded(offset: nat, k: nat)
    requires offset < LIMIT && k < TWO32
    ensures var end := if offset + k == 0 then TWO32 - 1 else (offset + k - 1) / BLOCK_SIZE;
      (end - offset / BLOCK_SIZE + 1) % TWO32 == NeedBlocks(offset, k)
    ensures k > 0 ==> NeedBlocks(offset, k) == (offset + k - 1) / BLOCK_SIZE - offset / BLOCK_SIZE + 1
  {
  }

  lemma NeededReadable(blocks: seq<Bytes>, size: nat, offset: nat, want: nat)
    requires offset < size
    ensures var k := NeedBlocks(offset, Count(size, offset, want));
      Readable(blocks, size, offset, want) <==> k == 0 || (offset / BLOCK_SIZE < |blocks| && Min(k, |blocks| - offset / BLOCK_SIZE) == k)
  {
  }

  /** The bytes read are in the blocks read. */
  lemma InBlocks(offset: nat, k: nat, n: nat)
    requires k > 0 && n == (offset + k - 1) / BLOCK_SIZE - offset / BLOCK_SIZE + 1
    ensures offset % BLOCK_SIZE + k <= n * BLOCK_SIZE
  {
  }

  lemma {:induction false} SegmentIs(blocks: seq<Bytes>, offset: nat, s: seq<Byte>)
    requires forall i :: 0 <= i < |s| ==> s[i] == At(blocks, offset + i)
    ensures Segment(blocks, offset, |s|) == s
  {
  }

  class Server {
    var fcbs: seq<Fcb>
    const svr: BlockStore

    ghost predicate Valid()
      reads this, svr
    {
      && |fcbs| == |svr.files| < TWO32
      && forall i :: 0 <= i < |fcbs| ==> fcbs[i].size < LIMIT && (fcbs[i].alloc || svr.files[i] == [])
    }

    /** Only file n is other than it was. */
    twostate predicate Others(n: nat)
      reads this, svr
    {
      && |fcbs| == |old(fcbs)| && |svr.files| == |old(svr.files)|
      && forall i :: 0 <= i < |fcbs| && i != n && i < |svr.files| ==>
        fcbs[i] == old(fcbs)[i] && svr.files[i] == old(svr.files)[i]
    }

    constructor (ninodes: nat)
      requires 0 < ninodes < TWO32
      ensures Valid() && fresh(svr) && |fcbs| == ninodes
      ensures fcbs[0] == Fcb(true, 0, 0, 0)
      ensures forall i :: 1 <= i < ninodes ==> fcbs[i] == Fcb(false, 0, 0, 0)
      ensures forall i :: 0 <= i < ninodes ==> svr.files[i] == []
    {
      svr := new BlockStore(ninodes);
      fcbs := [Fcb(true, 0, 0, 0)] + seq(ninodes - 1, i => Fcb(false, 0, 0, 0));
    }

    /** The buffer of a write: zeros, and what the blocks of the file hold */
    method Fetch(n: nat, offset: nat, len: nat, end: nat, psize: int) returns (ok: bool, contents: array<Byte>)
      requires Valid() && n < |fcbs| && end == (offset + len) / BLOCK_SIZE
      requires psize == Min(fcbs[n].size / BLOCK_SIZE, end) - offset / BLOCK_SIZE + 1
      ensures fresh(contents) && (ok <==> Puttable(svr.files[n], fcbs[n].size, offset))
      ensures ok ==> Fetched(svr.files[n], fcbs[n].size, offset, len, contents[..])
    {
      var size, start := fcbs[n].size, offset / BLOCK_SIZE;
      contents := new Byte[(end - start + 1) * BLOCK_SIZE];
      forall i | 0 <= i < contents.Length { contents[i] := 0; }
      ok := true;
      if start <= size / BLOCK_SIZE && size != 0 {
        ghost var was := contents[..];
        var got;
        ok, got := MultiRead(svr, n, start, contents, psize);
        if ok { FilledFetched(svr.files[n], size, offset, len, got, was, contents[..]); }
      }
    }

    /** blkfile_put */
    method Put(n: nat, offset: nat, data: seq<Byte>) returns (ok: bool)
      requires Valid() && n < |fcbs| && fcbs[n].alloc && offset + |data| < LIMIT
      modifies this, svr
      ensures Valid() && Others(n)
      ensures ok <==> Puttable(old(svr.files)[n], old(fcbs)[n].size, offset)
      ensures !ok ==> fcbs == old(fcbs) && svr.files == old(svr.files)
      ensures ok ==> fcbs[n] == old(fcbs)[n].(size := Max(old(fcbs)[n].size, offset + |data|))
      ensures ok ==> Puts(old(svr.files)[n], svr.files[n], old(fcbs)[n].size, offset, data)
    {
      var size := fcbs[n].size;
      var start := offset / BLOCK_SIZE;
      var final, end: nat, psize: int;
      if offset + |data| > size {
        final := offset + |data|;
        end := final / BLOCK_SIZE;
        psize := size / BLOCK_SIZE - start + 1;
      } else {
        final := size;
        end := (offset + |data|) / BLOCK_SIZE;
        psize := end - start + 1;
      }
      var contents;
      ok, contents := Fetch(n, offset, |data|, end, psize);
      if !ok { return; }
      ghost var c := contents[..];
      CopyData(contents, offset % BLOCK_SIZE, data);
      BufferPuts(svr.files[n], size, offset, data, c, contents[..]);
      MultiWrite(svr, n, start, contents, end - start + 1);
      WrotePuts(old(svr.files)[n], svr.files[n], size, offset, data, contents[..]);
      fcbs := fcbs[n := fcbs[n].(size := final)];
    }

    /** The bytes of a read, once it is allowed */
    method ReadBytes(n: nat, offset: nat, want: Word) returns (r: Reply)
      requires Valid() && n < |fcbs|
      ensures r == ReadReply(svr.files[n], fcbs[n].size, offset, want)
    {
      if want == 0 { return Done([]); }
      if offset < fcbs[n].size {
        var k: nat := (fcbs[n].size - offset) % TWO32;
        if k > want { k := want; }
        var start := offset / BLOCK_SIZE;
        var end := if offset + k == 0 then TWO32 - 1 else (offset + k - 1) / BLOCK_SIZE;
        var psize := (end - start + 1) % TWO32;
        BlocksNeeded(offset, k);
        NeededReadable(svr.files[n], fcbs[n].size, offset, want);
        hide NeedBlocks, Readable;
        var contents := new Byte[psize * BLOCK_SIZE];
        var ok, got := MultiRead(svr, n, start, contents, psize);
        if !ok || got != psize { return Failed; }
        if k == 0 { return Done([]); }
        var at := offset % BLOCK_SIZE;
        r := Done(contents[at..at + k]);
        InBlocks(offset, k, psize);
        SegmentIs(svr.files[n], offset, contents[at..at + k]);
      } else {
        r := Done([]);
      }
    }

    /** blkfile_do_read */
    method DoRead(n: nat, uid: nat, offset: nat, want: Word) returns (r: Reply)
      requires Valid()
      ensures r == (
        if n < |fcbs| && fcbs[n].alloc && ReadAllowed(fcbs[n].uid, fcbs[n].mode, uid) then
          ReadReply(svr.files[n], fcbs[n].size, offset, want)
        else
          Failed)
      ensures forall m, more :: n < |fcbs| && fcbs[n].alloc && fcbs[n].mode == ModeBits(m, more) ==>
        r == if uid == 0 || (if uid == fcbs[n].uid then m.ownerRead else m.othersRead)
             then ReadReply(svr.files[n], fcbs[n].size, offset, want) else Failed
    {
      forall m, more | n < |fcbs| && fcbs[n].mode == ModeBits(m, more)
        ensures ReadAllowed(fcbs[n].uid, fcbs[n].mode, uid) <==> uid == 0 || if uid == fcbs[n].uid then m.ownerRead else m.othersRead
      {
        ModeSays(fcbs[n].uid, m, more, uid);
      }
      hide ReadAllowed, ModeBits, ReadReply;
      if n >= |fcbs| || !fcbs[n].alloc { return Failed; }
      if !ReadAllowed(fcbs[n].uid, fcbs[n].mode, uid) { return Failed; }
      r := ReadBytes(n, offset, want);
    }

    /** blkfile_do_write */
    method DoWrite(n: nat, uid: nat, offset: nat, size: nat, data: seq<Byte>) returns (r: Reply)
      requires Valid() && offset + |data| < LIMIT
      modifies this, svr
      ensures Valid() && Others(n)
      ensures r == Failed || r == Done([])
      ensures r.Done? <==> (
        && n < |fcbs| && old(fcbs)[n].alloc && size == |data| && WriteAllowed(old(fcbs)[n].uid, old(fcbs)[n].mode, uid)
        && Puttable(old(svr.files)[n], old(fcbs)[n].size, offset))
      ensures forall m, more :: n < |fcbs| && old(fcbs)[n].mode == ModeBits(m, more) ==>
        (r.Done? <==> (
          && old(fcbs)[n].alloc && size == |data| && Puttable(old(svr.files)[n], old(fcbs)[n].size, offset)
          && (uid == 0 || if uid == old(fcbs)[n].uid then m.ownerWrite else m.othersWrite)))
      ensures r.Failed? ==> fcbs == old(fcbs) && svr.files == old(svr.files)
      ensures r.Done? ==> fcbs[n] == old(fcbs)[n].(size := Max(old(fcbs)[n].size, offset + |data|))
      ensures r.Done? ==> Puts(old(svr.files)[n], svr.files[n], old(fcbs)[n].size, offset, data)
    {
      forall m, more | n < |fcbs| && fcbs[n].mode == ModeBits(m, more)
        ensures WriteAllowed(fcbs[n].uid, fcbs[n].mode, uid) <==> uid == 0 || if uid == fcbs[n].uid then m.ownerWrite else m.othersWrite
      {
        ModeSays(fcbs[n].uid, m, more, uid);
      }
      hide WriteAllowed, ModeBits;
      if n >= |fcbs| || !fcbs[n].alloc { return Failed; }
      if size != |data| { return Failed; }
      if !WriteAllowed(fcbs[n].uid, fcbs[n].mode, uid) { return Failed; }
      var ok := Put(n, offset, data);
      r := if ok then Done([]) else Failed;
    }

    /** blkfile_do_setsize: when the store refuses, the size is changed and a second reply sent all the same. */
    method DoSetSize(n: nat, uid: nat, size: nat) returns (rs: seq<Reply>)
      requires Valid()
      modifies this, svr
      ensures Valid() && Others(n)
      ensures var ok := n < |fcbs| && old(fcbs)[n].alloc && size <= old(fcbs)[n].size && WriteAllowed(old(fcbs)[n].uid, old(fcbs)[n].mode, uid);
        && (!ok ==> rs == [Failed] && fcbs == old(fcbs) && svr.files == old(svr.files))
        && (ok ==> fcbs[n] == old(fcbs)[n].(size := size)
                   && svr.files[n] == (if size == 0 then [] else old(svr.files)[n])
                   && rs == if size == 0 || |old(svr.files)[n]| == 1 + size / BLOCK_SIZE then [Done([])]
                            else [Failed, Done([])])
    {
      if n >= |fcbs| || !fcbs[n].alloc { return [Failed]; }
      if size > fcbs[n].size { return [Failed]; }
      if !WriteAllowed(fcbs[n].uid, fcbs[n].mode, uid) { return [Failed]; }
      rs := [];
      var nblocks := if size == 0 then 0 else 1 + size / BLOCK_SIZE;
      var ok := svr.SetSize(n, nblocks);
      if !ok { rs := [Failed]; }
      fcbs := fcbs[n := fcbs[n].(size := size)];
      rs := rs + [Done([])];
    }

    /** blkfile_do_create: the first free file gets an owner and a mode, and keeps its size. */
    method DoCreate(uid: nat, mode: nat) returns (r: Reply)
      requires Valid() && |fcbs| > 0
      modifies this
      ensures Valid()
      ensures var n := FirstFree(old(fcbs), 1);
        if n == |old(fcbs)| then r == Failed && fcbs == old(fcbs)
        else r == Created(n) && fcbs == old(fcbs)[n := old(fcbs)[n].(alloc := true, uid := uid, mode := mode)]
    {
      var n: nat := 1;
      while n < |fcbs|
        invariant 1 <= n <= |fcbs| && FirstFree(fcbs, n) == FirstFree(fcbs, 1)
      {
        if !fcbs[n].alloc { break; }
        n := n + 1;
      }
      if n == |fcbs| { return Failed; }
      fcbs := fcbs[n := fcbs[n].(alloc := true, uid := uid, mode := mode)];
      return Created(n);
    }

    /** blkfile_do_delete */
    method DoDelete(n: nat, uid: nat) returns (r: Reply)
      requires Valid()
      modifies this, svr
      ensures Valid() && Others(n)
      ensures r == if n < |fcbs| && WriteAllowed(old(fcbs)[n].uid, old(fcbs)[n].mode, uid) then Done([]) else Failed
      ensures r.Done? && old(fcbs)[n].alloc ==> fcbs[n] == old(fcbs)[n].(alloc := false) && svr.files[n] == []
      ensures !(r.Done? && old(fcbs)[n].alloc) ==> fcbs == old(fcbs) && svr.files == old(svr.files)
    {
      if n >= |fcbs| { return Failed; }
      if !WriteAllowed(fcbs[n].uid, fcbs[n].mode, uid) { return Failed; }
      if fcbs[n].alloc {
        fcbs := fcbs[n := fcbs[n].(alloc := false)];
        var _ := svr.SetSize(n, 0);
      }
      return Done([]);
    }
  }

  /** What the buffer of a write holds before the data: the blocks read, if any, and zeros */
  ghost predicate Fetched(blocks: seq<Bytes>, size: nat, offset: nat, n: nat, c: seq<Byte>) {
    var start, end := offset / BLOCK_SIZE, (offset + n) / BLOCK_SIZE;
    && |c| == (end - start + 1) * BLOCK_SIZE
    && forall x :: 0 <= x < |c| ==> c[x] == FetchedAt(blocks, size, start * BLOCK_SIZE + x)
  }

  function FetchedAt(blocks: seq<Bytes>, size: nat, x: nat): Byte {
    if Kept(size, x) then At(blocks, x) else 0
  }

  lemma FilledFetched(blocks: seq<Bytes>, size: nat, offset: nat, len: nat, got: nat, was: seq<Byte>, c: seq<Byte>)
    requires var start, end := offset / BLOCK_SIZE, (offset + len) / BLOCK_SIZE;
      && size != 0 && start <= size / BLOCK_SIZE && start < |blocks|
      && got == Min(Min(size / BLOCK_SIZE, end) - start + 1, |blocks| - start)
      && |c| == |was| == (end - start + 1) * BLOCK_SIZE
      && forall x :: 0 <= x < |c| ==> was[x] == 0 && c[x] == Filled(blocks, start, got, was, x)
    ensures Fetched(blocks, size, offset, len, c)
  {
    var start := offset / BLOCK_SIZE;
    forall x | 0 <= x < |c| ensures c[x] == FetchedAt(blocks, size, start * BLOCK_SIZE + x) {
      var y := start * BLOCK_SIZE + x;
      assert y / BLOCK_SIZE == start + x / BLOCK_SIZE;
      assert was[x] == 0 && c[x] == Filled(blocks, start, got, was, x);
    }
  }

  ghost predicate Buffered(blocks: seq<Bytes>, size: nat, offset: nat, data: seq<Byte>, c: seq<Byte>) {
    var start, end := offset / BLOCK_SIZE, (offset + |data|) / BLOCK_SIZE;
    && |c| == (end - start + 1) * BLOCK_SIZE
    && forall x :: 0 <= x < |c| ==> c[x] == PutAt(blocks, size, offset, data, start * BLOCK_SIZE + x)
  }

  lemma BufferPuts(blocks: seq<Bytes>, size: nat, offset: nat, data: seq<Byte>, c: seq<Byte>, after: seq<Byte>)
    requires Fetched(blocks, size, offset, |data|, c) && |after| == |c|
    requires var at := offset % BLOCK_SIZE;
      forall x :: 0 <= x < |c| ==> after[x] == if at <= x < at + |data| then data[x - at] else c[x]
    ensures Buffered(blocks, size, offset, data, after)
  {
    var start, at := offset / BLOCK_SIZE, offset % BLOCK_SIZE;
    forall x | 0 <= x < |c| ensures after[x] == PutAt(blocks, size, offset, data, start * BLOCK_SIZE + x) {
      var y := start * BLOCK_SIZE + x;
      assert c[x] == FetchedAt(blocks, size, y);
      assert start <= y / BLOCK_SIZE <= (offset + |data|) / BLOCK_SIZE;
    }
  }

  lemma WrotePuts(was: seq<Bytes>, now: seq<Bytes>, size: nat, offset: nat, data: seq<Byte>, c: seq<Byte>)
    requires Buffered(was, size, offset, data, c)
    requires var start, end := offset / BLOCK_SIZE, (offset + |data|) / BLOCK_SIZE;
      Wrote(was, now, start, end - start + 1, c)
    ensures Puts(was, now, size, offset, data)
  {
    var start, end := offset / BLOCK_SIZE, (offset + |data|) / BLOCK_SIZE;
    forall x: nat ensures At(now, x) == PutAt(was, size, offset, data, x) {
      assert At(now, x) == WroteAt(was, start, end - start + 1, c, x);
      if start <= x / BLOCK_SIZE <= end {
        var y := x - start * BLOCK_SIZE;
        assert c[y] == PutAt(was, size, offset, data, start * BLOCK_SIZE + y);
      }
    }
  }

  method CopyData(addr: array<Byte>, at: nat, data: seq<Byte>)
    requires at + |data| <= addr.Length
    modifies addr
    ensures forall x :: 0 <= x < addr.Length ==>
      addr[x] == if at <= x < at + |data| then data[x - at] else old(addr[x])
  {
    forall i | 0 <= i < |data| { addr[at + i] := data[i]; }
  }

  // ---- what a client sees ----

  /** A file of bytes; of one that is not there, the owner, the mode and the size stay behind. */
  datatype File = File(there: bool, uid: nat, mode: nat, data: seq<Byte>, stale: nat)

  function Seen(fcb: Fcb, blocks: seq<Bytes>): File {
    if fcb.alloc then File(true, fcb.uid, fcb.mode, Segment(blocks, 0, fcb.size), 0)
    else File(false, fcb.uid, fcb.mode, [], fcb.size)
  }

  /** Any file but the one the server's own table is in */
  type FileNo = n: nat | n > 0 witness 1

  datatype Op =
    | Create(uid: nat, mode: nat)
    | Delete(n: FileNo, uid: nat)
    | Get(n: FileNo, uid: nat, offset: nat, want: Word)
    | Put(n: FileNo, uid: nat, offset: nat, size: nat, data: seq<Byte>)
    | Cut(n: FileNo, uid: nat, size: nat)

  function FirstAbsent(files: seq<File>, n: nat): (r: nat)
    requires n <= |files|
    ensures n <= r <= |files| && (forall i :: n <= i < r ==> files[i].there) && (r < |files| ==> !files[r].there)
    decreases |files| - n
  {
    if n < |files| && files[n].there then FirstAbsent(files, n + 1) else n
  }

  function Taken(data: seq<Byte>, offset: nat, n: nat): seq<Byte>
    requires n == 0 || offset + n <= |data|
  {
    if n == 0 then [] else data[offset..offset + n]
  }

  predicate Writable(files: seq<File>, n: nat, uid: nat) {
    n < |files| && files[n].there && WriteAllowed(files[n].uid, files[n].mode, uid)
  }

  /** What each request does to plain files of bytes, and its reply */
  function Step(files: seq<File>, op: Op): (r: (seq<File>, seq<Reply>))
    requires |files| > 0
    ensures |r.0| == |files|
  {
    match op
    case Create(uid, mode) =>
      var n := FirstAbsent(files, 1);
      if n == |files| then (files, [Failed]) else (files[n := File(true, uid, mode, [], 0)], [Created(n)])
    case Delete(n, uid) =>
      if n >= |files| || !WriteAllowed(files[n].uid, files[n].mode, uid) then (files, [Failed])
      else if !files[n].there then (files, [Done([])])
      else (files[n := File(false, files[n].uid, files[n].mode, [], |files[n].data|)], [Done([])])
    case Get(n, uid, offset, want) =>
      if n < |files| && files[n].there && ReadAllowed(files[n].uid, files[n].mode, uid) then
        (files, [Done(Taken(files[n].data, offset, Rest(|files[n].data|, offset, want)))])
      else
        (files, [Failed])
    case Put(n, uid, offset, size, data) =>
      if Writable(files, n, uid) && size == |data| then
        (files[n := files[n].(data := Patched(files[n].data, offset, data))], [Done([])])
      else
        (files, [Failed])
    case Cut(n, uid, size) =>
      if Writable(files, n, uid) && size <= |files[n].data| then
        (files[n := files[n].(data := files[n].data[..size])], [Done([])])
      else
        (files, [Failed])
  }

  /** A file can be cut to nothing, or within its last block if it has only zeros there. */
  predicate Cuttable(data: seq<Byte>, n: nat) {
    n == 0 || (n / BLOCK_SIZE == |data| / BLOCK_SIZE && forall x :: n <= x < |data| ==> data[x] == 0)
  }

  /** The requests that are served as for plain files: no file is cut but as it can be, none is created where a
      file that was not empty has been, and no read has its file counted short. */
  predicate Gentle(files: seq<File>, op: Op)
    requires |files| > 0
  {
    match op
    case Create(_, _) => FirstAbsent(files, 1) < |files| ==> files[FirstAbsent(files, 1)].stale == 0
    case Cut(n, uid, size) =>
      Writable(files, n, uid) && size <= |files[n].data| ==> Cuttable(files[n].data, size)
    case Get(n, uid, offset, want) =>
      n < |files| && files[n].there && ReadAllowed(files[n].uid, files[n].mode, uid) ==>
        Countable(|files[n].data|, offset, want)
    case _ => true
  }

  predicate InStore(op: Op) {
    op.Put? ==> op.offset + |op.data| < LIMIT
  }

  ghost predicate Sounds(fcbs: seq<Fcb>, blocks: seq<seq<Bytes>>) {
    |fcbs| == |blocks| && forall i :: 0 <= i < |fcbs| && fcbs[i].alloc ==> Sound(blocks[i], fcbs[i].size)
  }

  ghost predicate Shows(fcbs: seq<Fcb>, blocks: seq<seq<Bytes>>, files: seq<File>) {
    |fcbs| == |blocks| == |files| && forall i :: 0 <= i < |fcbs| ==> files[i] == Seen(fcbs[i], blocks[i])
  }

  /** Within a file, what is read is there. */
  lemma ReadSeen(blocks: seq<Bytes>, size: nat, offset: nat, want: nat)
    requires Sound(blocks, size)
    ensures ReadReply(blocks, size, offset, want)
      == Done(Taken(Segment(blocks, 0, size), offset, Count(size, offset, want)))
  {
    var k := Count(size, offset, want);
    if offset < size {
      if k > 0 { assert (offset + k - 1) / BLOCK_SIZE <= size / BLOCK_SIZE; }
    }
    assert Segment(blocks, offset, k) == Taken(Segment(blocks, 0, size), offset, k);
  }

  /** After a cut, the blocks still fit the bytes just if the file could be cut. */
  lemma CutSound(blocks: seq<Bytes>, size: nat, n: nat)
    requires Sound(blocks, size) && n <= size
    ensures Sound(if n == 0 then [] else blocks, n) <==> Cuttable(Segment(blocks, 0, size), n)
    ensures Segment(if n == 0 then [] else blocks, 0, n) == Segment(blocks, 0, size)[..n]
  {
    var data := Segment(blocks, 0, size);
    if n > 0 && Sound(blocks, n) {
      forall x | n <= x < size ensures data[x] == 0 { assert At(blocks, x) == 0; }
    }
    if n > 0 && Cuttable(data, n) {
      forall x: nat | x >= n ensures At(blocks, x) == 0 { if x < size { assert data[x] == 0; } }
    }
  }
}
