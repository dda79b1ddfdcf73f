/** Runs of the block file server: files of bytes over any requests. */
module ByteRuns {
  import Radix
  import opened ByteFiles

  /** The files after some requests */
  function After(files: seq<File>, ops: seq<Op>): (r: seq<File>)
    requires |files| > 0
    ensures |r| == |files|
  {
    if ops == [] then files else Step(After(files, ops[..|ops| - 1]), ops[|ops| - 1]).0
  }

  function Replies(files: seq<File>, ops: seq<Op>): (r: seq<seq<Reply>>)
    requires |files| > 0
    ensures |r| == |ops|
  {
    if ops == [] then []
    else Replies(files, ops[..|ops| - 1]) + [Step(After(files, ops[..|ops| - 1]), ops[|ops| - 1]).1]
  }

  predicate AllGentle(files: seq<File>, ops: seq<Op>)
    requires |files| > 0
  {
    ops == [] || (AllGentle(files, ops[..|ops| - 1]) && Gentle(After(files, ops[..|ops| - 1]), ops[|ops| - 1]))
  }

  /** Which requests for a file that is there are granted: those of the superuser, and those that the bit for the
      owner or for others allows. */
  lemma Granted(files: seq<File>, n: FileNo, uid: nat, m: Mode, more: nat, offset: nat, want: Radix.Word, size: nat,
                data: seq<Byte>)
    requires n < |files| && files[n].there && files[n].mode == ModeBits(m, more)
    ensures Step(files, Get(n, uid, offset, want)).1 != [Failed] <==> uid == 0 || if uid == files[n].uid then m.ownerRead else m.othersRead
    ensures Step(files, Op.Put(n, uid, offset, size, data)).1 == [Done([])] <==>
      size == |data| && (uid == 0 || if uid == files[n].uid then m.ownerWrite else m.othersWrite)
    ensures Step(files, Cut(n, uid, size)).1 == [Done([])] <==>
      size <= |files[n].data| && (uid == 0 || if uid == files[n].uid then m.ownerWrite else m.othersWrite)
    ensures Step(files, Delete(n, uid)).1 == [Done([])] <==> uid == 0 || if uid == files[n].uid then m.ownerWrite else m.othersWrite
  {
    ModeSays(files[n].uid, m, more, uid);
    hide ReadAllowed, WriteAllowed, ModeBits;
  }

  /** Whoever creates a file with the default mode may read and write it; another user may only read it. */
  lemma DefaultRights(files: seq<File>, uid: nat, other: nat, offset: nat, want: Radix.Word, data: seq<Byte>) returns (n: FileNo)
    requires other != 0 && other != uid && exists i :: 1 <= i < |files| && !files[i].there
    ensures n < |files| && !files[n].there && (forall i :: 1 <= i < n ==> files[i].there)
    ensures Step(files, Create(uid, DEFAULT)).1 == [Created(n)]
    ensures var files' := Step(files, Create(uid, DEFAULT)).0;
      && (forall i :: 0 <= i < |files| && i != n ==> files'[i] == files[i]) && files'[n].data == []
      && Step(files', Get(n, uid, offset, want)).1 != [Failed]
      && Step(files', Op.Put(n, uid, offset, |data|, data)).1 == [Done([])]
      && Step(files', Get(n, other, offset, want)).1 != [Failed]
      && Step(files', Op.Put(n, other, offset, |data|, data)).1 == [Failed]
  {
    n := FirstAbsent(files, 1);
    var m, more := ModeHasBits(DEFAULT);
    var files' := Step(files, Create(uid, DEFAULT)).0;
    Granted(files', n, uid, m, more, offset, want, |data|, data);
    Granted(files', n, other, m, more, offset, want, |data|, data);
  }

  // ---- one request ----

  ghost predicate Good(fcbs: seq<Fcb>, blocks: seq<seq<Bytes>>, files: seq<File>) {
    Sounds(fcbs, blocks) && Shows(fcbs, blocks, files)
  }

  /** Only file n is other than it was. */
  ghost predicate OnlyOne(fcbs: seq<Fcb>, blocks: seq<seq<Bytes>>, fcbs': seq<Fcb>, blocks': seq<seq<Bytes>>, n: nat) {
    && |fcbs| == |fcbs'| == |blocks| == |blocks'|
    && forall i :: 0 <= i < |fcbs| && i != n ==> fcbs'[i] == fcbs[i] && blocks'[i] == blocks[i]
  }

  lemma OneShown(fcbs: seq<Fcb>, blocks: seq<seq<Bytes>>, fcbs': seq<Fcb>, blocks': seq<seq<Bytes>>,
                 files: seq<File>, n: nat, f: File)
    requires Good(fcbs, blocks, files) && OnlyOne(fcbs, blocks, fcbs', blocks', n) && n < |fcbs|
    requires f == Seen(fcbs'[n], blocks'[n])
    ensures Shows(fcbs', blocks', files[n := f])
    ensures Sounds(fcbs', blocks') <==> (fcbs'[n].alloc ==> Sound(blocks'[n], fcbs'[n].size))
  {
    if fcbs'[n].alloc ==> Sound(blocks'[n], fcbs'[n].size) {
      forall i | 0 <= i < |fcbs'| && fcbs'[i].alloc ensures Sound(blocks'[i], fcbs'[i].size) {}
    }
  }

  /** A gentle request does what it does to plain files; any other gets a reply that is short, or leaves bytes
      and blocks out of step. */
  ghost predicate Served(s: Server, op: Op, files: seq<File>, rs: seq<Reply>)
    reads s, s.svr
    requires |files| > 0
  {
    if Gentle(files, op) then Good(s.fcbs, s.svr.files, Step(files, op).0) && rs == Step(files, op).1
    else if op.Get? then Good(s.fcbs, s.svr.files, files) && rs != Step(files, op).1
    else !Sounds(s.fcbs, s.svr.files)
  }

  lemma FirstSeen(fcbs: seq<Fcb>, blocks: seq<seq<Bytes>>, files: seq<File>, n: nat)
    requires Shows(fcbs, blocks, files) && n <= |fcbs|
    ensures FirstAbsent(files, n) == FirstFree(fcbs, n)
    decreases |fcbs| - n
  {
  }

  method ServeCreate(s: Server, op: Op, ghost files: seq<File>) returns (rs: seq<Reply>)
    requires s.Valid() && op.Create? && |files| == |s.fcbs| > 0
    modifies s
    ensures s.Valid() && |s.fcbs| == |old(s.fcbs)|
    ensures old(Good(s.fcbs, s.svr.files, files)) ==> Served(s, op, files, rs)
  {
    hide Sound;
    ghost var fcbs, blocks := s.fcbs, s.svr.files;
    ghost var good := Good(fcbs, blocks, files);
    if good { FirstSeen(fcbs, blocks, files, 1); }
    var r := s.DoCreate(op.uid, op.mode);
    rs := [r];
    ghost var n := FirstFree(fcbs, 1);
    if good && n < |fcbs| {
      CreatedSound(fcbs[n].size);
      OneShown(fcbs, blocks, s.fcbs, s.svr.files, files, n, Seen(s.fcbs[n], s.svr.files[n]));
    }
  }

  /** A file without blocks is empty. */
  lemma CreatedSound(size: nat)
    ensures Sound([], size) <==> size == 0
    ensures Segment([], 0, 0) == []
  {
  }

  method ServeDelete(s: Server, op: Op, ghost files: seq<File>) returns (rs: seq<Reply>)
    requires s.Valid() && op.Delete? && |files| == |s.fcbs| > 0
    modifies s, s.svr
    ensures s.Valid() && |s.fcbs| == |old(s.fcbs)|
    ensures old(Good(s.fcbs, s.svr.files, files)) ==> Served(s, op, files, rs)
  {
    hide Sound, WriteAllowed;
    ghost var fcbs, blocks := s.fcbs, s.svr.files;
    ghost var good := Good(fcbs, blocks, files);
    var r := s.DoDelete(op.n, op.uid);
    rs := [r];
    if good && r.Done? && fcbs[op.n].alloc {
      OneShown(fcbs, blocks, s.fcbs, s.svr.files, files, op.n, Seen(s.fcbs[op.n], s.svr.files[op.n]));
    }
  }

  method ServeGet(s: Server, op: Op, ghost files: seq<File>) returns (rs: seq<Reply>)
    requires s.Valid() && op.Get? && |files| == |s.fcbs| > 0
    ensures Good(s.fcbs, s.svr.files, files) ==> Served(s, op, files, rs)
  {
    hide Sound, ReadAllowed;
    if op.n < |s.fcbs| { CountExact(s.fcbs[op.n].size, op.offset, op.want); }
    if Good(s.fcbs, s.svr.files, files) && op.n < |s.fcbs| && s.fcbs[op.n].alloc {
      ReadSeen(s.svr.files[op.n], s.fcbs[op.n].size, op.offset, op.want);
    }
    var r := s.DoRead(op.n, op.uid, op.offset, op.want);
    rs := [r];
  }

  method ServePut(s: Server, op: Op, ghost files: seq<File>) returns (rs: seq<Reply>)
    requires s.Valid() && op.Put? && |files| == |s.fcbs| > 0 && InStore(op)
    modifies s, s.svr
    ensures s.Valid() && |s.fcbs| == |old(s.fcbs)|
    ensures old(Good(s.fcbs, s.svr.files, files)) ==> Served(s, op, files, rs)
  {
    hide Sound, WriteAllowed, Puttable, Puts;
    ghost var fcbs, blocks := s.fcbs, s.svr.files;
    ghost var good := Good(fcbs, blocks, files);
    var n: nat := op.n;
    if good && n < |fcbs| && fcbs[n].alloc { SoundPuttable(blocks[n], fcbs[n].size, op.offset); }
    var r := s.DoWrite(n, op.uid, op.offset, op.size, op.data);
    rs := [r];
    if good && r.Done? {
      PutPlain(blocks[n], s.svr.files[n], fcbs[n].size, op.offset, op.data);
      OneShown(fcbs, blocks, s.fcbs, s.svr.files, files, n, Seen(s.fcbs[n], s.svr.files[n]));
    }
  }

  lemma SoundPuttable(blocks: seq<Bytes>, size: nat, offset: nat)
    requires Sound(blocks, size)
    ensures Puttable(blocks, size, offset)
  {
  }

  method ServeCut(s: Server, op: Op, ghost files: seq<File>) returns (rs: seq<Reply>)
    requires s.Valid() && op.Cut? && |files| == |s.fcbs| > 0
    modifies s, s.svr
    ensures s.Valid() && |s.fcbs| == |old(s.fcbs)|
    ensures old(Good(s.fcbs, s.svr.files, files)) ==> Served(s, op, files, rs)
  {
    hide Sound, WriteAllowed;
    ghost var fcbs, blocks := s.fcbs, s.svr.files;
    ghost var good := Good(fcbs, blocks, files);
    var n: nat := op.n;
    rs := s.DoSetSize(n, op.uid, op.size);
    if good && n < |fcbs| && fcbs[n].alloc && op.size <= fcbs[n].size && WriteAllowed(fcbs[n].uid, fcbs[n].mode, op.uid) {
      CutSound(blocks[n], fcbs[n].size, op.size);
      SoundBlocks(blocks[n], fcbs[n].size);
      OneShown(fcbs, blocks, s.fcbs, s.svr.files, files, n, Seen(s.fcbs[n], s.svr.files[n]));
    }
  }

  lemma SoundBlocks(blocks: seq<Bytes>, size: nat)
    requires Sound(blocks, size)
    ensures |blocks| == size / BLOCK_SIZE + 1 || (size == 0 && blocks == [])
  {
  }

  /** One request, of any kind */
  method Serve(s: Server, op: Op, ghost files: seq<File>) returns (rs: seq<Reply>)
    requires s.Valid() && |files| == |s.fcbs| > 0 && InStore(op)
    modifies s, s.svr
    ensures s.Valid() && |s.fcbs| == |old(s.fcbs)|
    ensures old(Good(s.fcbs, s.svr.files, files)) ==> Served(s, op, files, rs)
  {
    hide Served, Good;
    match op
    case Create(_, _) => rs := ServeCreate(s, op, files);
    case Delete(_, _) => rs := ServeDelete(s, op, files);
    case Get(_, _, _, _) => rs := ServeGet(s, op, files);
    case Put(_, _, _, _, _) => rs := ServePut(s, op, files);
    case Cut(_, _, _) => rs := ServeCut(s, op, files);
  }

  // ---- runs ----

  /** The server over any requests: up to the first that is not gentle, its replies are those of plain files. */
  method Run(s: Server, ops: seq<Op>, ghost files: seq<File>) returns (answers: seq<seq<Reply>>)
    requires s.Valid() && |s.fcbs| == |files| > 0 && Good(s.fcbs, s.svr.files, files)
    requires forall op :: op in ops ==> InStore(op)
    modifies s, s.svr
    ensures s.Valid() && |answers| == |ops|
    ensures forall k :: 0 <= k <= |ops| && AllGentle(files, ops[..k]) ==> answers[..k] == Replies(files, ops[..k])
    ensures AllGentle(files, ops) ==> Good(s.fcbs, s.svr.files, After(files, ops))
  {
    hide Good, Served, Step, Gentle;
    answers := [];
    var i := 0;
    while i < |ops|
      invariant 0 <= i <= |ops| && |answers| == i && s.Valid() && |s.fcbs| == |files|
      invariant AllGentle(files, ops[..i]) ==> Good(s.fcbs, s.svr.files, After(files, ops[..i]))
      invariant forall k :: 0 <= k <= i && AllGentle(files, ops[..k]) ==> answers[..k] == Replies(files, ops[..k])
    {
      ghost var was := answers;
      ghost var now := After(files, ops[..i]);
      var rs := Serve(s, ops[i], now);
      answers := answers + [rs];
      assert ops[..i + 1][..i] == ops[..i];
      assert forall k :: 0 <= k <= i ==> answers[..k] == was[..k];
      assert answers[..i + 1] == was[..i] + [rs];
      if AllGentle(files, ops[..i + 1]) { ServedIs(s, ops[i], now, rs); }
      i := i + 1;
    }
    assert ops[..i] == ops;
  }

  lemma ServedIs(s: Server, op: Op, files: seq<File>, rs: seq<Reply>)
    requires |files| > 0 && Served(s, op, files, rs) && Gentle(files, op)
    ensures Good(s.fcbs, s.svr.files, Step(files, op).0) && rs == Step(files, op).1
  {
  }

  /** The files of a new server: none but the server's own */
  function Fresh(n: nat): (f: seq<File>)
    ensures |f| == n
    ensures forall i :: 0 <= i < n ==> f[i] == File(i == 0, 0, 0, [], 0)
  {
    if n == 0 then [] else Fresh(n - 1) + [File(n == 1, 0, 0, [], 0)]
  }

  method Boot(n: nat, ops: seq<Op>) returns (s: Server, answers: seq<seq<Reply>>)
    requires 0 < n < Radix.TWO32
    requires forall op :: op in ops ==> InStore(op)
    ensures s.Valid() && |answers| == |ops|
    ensures forall k :: 0 <= k <= |ops| && AllGentle(Fresh(n), ops[..k]) ==>
      answers[..k] == Replies(Fresh(n), ops[..k])
    ensures AllGentle(Fresh(n), ops) ==> Good(s.fcbs, s.svr.files, After(Fresh(n), ops))
  {
    s := new Server(n);
    CreatedSound(0);
    answers := Run(s, ops, Fresh(n));
  }

  // ---- requests that are not gentle ----

  /** A byte cut off comes back when the file grows again; a plain file has a zero there. */
  method StaleExample() returns (r: Reply)
    ensures r == Done([1, 2])
    ensures var cut := File(true, 0, 0, [1, 2], 0).(data := [1, 2][..1]);
      Taken(Patched(cut.data, 2, []), 0, 2) == [1, 0]
  {
    var s := new Server(2);
    var c := s.DoCreate(0, 0);
    assert FirstFree(s.fcbs, 1) == 2;
    var w := s.DoWrite(1, 0, 0, 2, [1, 2]);
    ghost var was, blocks := [], s.svr.files[1];
    assert Puts(was, blocks, 0, 0, [1, 2]);
    assert At(blocks, 0) == PutAt(was, 0, 0, [1, 2], 0) == 1 && At(blocks, 1) == PutAt(was, 0, 0, [1, 2], 1) == 2;
    var rs := s.DoSetSize(1, 0, 1);
    var g := s.DoWrite(1, 0, 2, 0, []);
    ghost var now := s.svr.files[1];
    assert At(now, 0) == PutAt(blocks, 1, 2, [], 0) == 1 && At(now, 1) == PutAt(blocks, 1, 2, [], 1) == 2;
    r := s.DoRead(1, 0, 0, 2);
    assert Segment(now, 0, 2) == [1, 2];
  }

  /** A file created where another was has its size, and no blocks: it cannot be read. */
  method RecreateExample() returns (r: Reply)
    ensures r == Failed
  {
    var s := new Server(2);
    var c := s.DoCreate(0, 0);
    var w := s.DoWrite(1, 0, 0, 1, [7]);
    var d := s.DoDelete(1, 0);
    c := s.DoCreate(0, 0);
    assert s.fcbs[1].alloc && s.fcbs[1].size == 1 && s.svr.files[1] == [];
    r := s.DoRead(1, 0, 0, 1);
  }

  /** A file of 2^32 + 1 bytes gives one byte where two are asked for. */
  method ShortExample() returns (r: Reply)
    ensures r == Done([0]) && Rest(0x1_0000_0001, 0, 2) == 2 && !Countable(0x1_0000_0001, 0, 2)
  {
    var s := new Server(2);
    var c := s.DoCreate(0, 0);
    assert FirstFree(s.fcbs, 1) == 2;
    var w := s.DoWrite(1, 0, 0x1_0000_0000, 1, [7]);
    ghost var blocks := s.svr.files[1];
    assert At(blocks, 0) == PutAt([], 0, 0x1_0000_0000, [7], 0) == 0;
    r := s.DoRead(1, 0, 0, 2);
    assert Segment(blocks, 0, 1) == [0];
  }
}
