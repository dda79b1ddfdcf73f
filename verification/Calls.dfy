/** System calls as steps of the kernel, and what holds after any number of them. */
module Calls {
  import opened Processes
  import opened Messaging
  import opened Killing
  import opened Scheduling

  // ---- waiting for a message ----

  /** The current process starts waiting for mailbox t (of a reply: from the named process), for
      at most max time units unless that is 0 (first part of proc_recv). */
  function Blocked(p: Proc, t: nat, named: nat, max: nat, now: nat): Proc
    requires t < |p.boxes|
  {
    var boxes := p.boxes[t := p.boxes[t].(waiting := true)];
    var q := p.(state := Waiting, boxes := boxes, cont := Receiving(t, named));
    if max != 0 then q.(exptime := now + max, alarm := true) else q
  }

  function Block(k: Table, t: nat, named: nat, max: nat, now: nat): Table
    requires k.current < |k.procs| && t < |k.procs[k.current].boxes|
  {
    Put(k, k.current, Blocked(k.procs[k.current], t, named, max, now)).(nrunnable := k.nrunnable - 1)
  }

  /** The current process runs, and is not in the middle of a call. */
  ghost predicate AtWork(k: Table) {
    k.current < |k.procs| && k.procs[k.current].state == Runnable && k.procs[k.current].cont == Running
  }

  lemma BlockOk(k: Table, t: nat, named: nat, max: nat, now: nat)
    requires TableOk(k, {}, {}) && AtWork(k) && t < NTYPES && |k.procs[k.current].boxes| == NTYPES
    requires k.procs[k.current].boxes[t].messages == []
    requires t == REPLY ==> max == 0 && k.procs[k.current].server == named != k.procs[k.current].pid && named in AlivePids(k.procs) && named < k.nextPid
    ensures TableOk(Block(k, t, named, max, now), {}, {})
    ensures AlivePids(Block(k, t, named, max, now).procs) == AlivePids(k.procs)
  {
    var c, p := k.current, Blocked(k.procs[k.current], t, named, max, now);
    assert ProcOk(k.procs[c], AlivePids(k.procs), {}, k.nextPid);
    assert ProcOk(p, AlivePids(k.procs), {}, k.nextPid);
    CountsAfter(k, c, p, k.nprocs, k.nrunnable - 1);
    PidsAfter(k, c, p);
    ProcsAfter(k, c, p, {});
    forall j: nat ensures SlotOk(Block(k, t, named, max, now), {}, j) {
      assert SlotOk(k, {}, j);
    }
  }

  datatype Option<T> = None | Some(value: T)

  /** What a process gets from a mailbox, for a reply with the process it named in its call. */
  datatype Receipt = Receipt(pid: nat, box: nat, named: nat, answer: Option<Message>)

  function Taken(p: Proc, t: nat): Proc
    requires t < |p.boxes|
  {
    p.(boxes := p.boxes[t := p.boxes[t].(messages := if p.boxes[t].messages == [] then [] else p.boxes[t].messages[1..])], cont := Running)
  }

  function First(p: Proc, t: nat): Option<Message>
    requires t < |p.boxes|
  {
    if p.boxes[t].messages == [] then None else Some(p.boxes[t].messages[0])
  }

  /** The current process goes on in proc_recv: it takes the first message, if any. */
  function Take(k: Table): (Table, Option<Receipt>)
    requires k.current < |k.procs|
    requires k.procs[k.current].cont.Receiving? ==> k.procs[k.current].cont.box < |k.procs[k.current].boxes|
  {
    var p := k.procs[k.current];
    if !p.cont.Receiving? then (k, None)
    else (Put(k, k.current, Taken(p, p.cont.box)), Some(Receipt(p.pid, p.cont.box, p.cont.named, First(p, p.cont.box))))
  }

  /** An RPC ends with a reply from the process it named, or with none, and then that process is
      dead. */
  ghost predicate Proper(k: Table, r: Receipt) {
    r.box == REPLY ==>
      && (r.answer.Some? ==> r.answer.value.src == r.named)
      && (r.answer.None? ==> r.named !in AlivePids(k.procs))
  }

  lemma TakeOk(k: Table)
    requires TableOk(k, {}, {}) && k.current < |k.procs| && k.procs[k.current].state == Runnable
    ensures var p := k.procs[k.current];
      && |p.boxes| == NTYPES && (p.cont.Receiving? ==> p.cont.box < NTYPES)
      && var (k', r) := Take(k);
      && TableOk(k', {}, {}) && AtWork(k') && AlivePids(k'.procs) == AlivePids(k.procs)
      && |k'.procs| == |k.procs| && k'.nextPid == k.nextPid && k'.shutting == k.shutting
      && (r.Some? ==> Proper(k', r.value))
  {
    var p := k.procs[k.current];
    assert ProcOk(p, AlivePids(k.procs), {}, k.nextPid);
    if p.cont.Receiving? {
      TakenOk(k, p.cont.box);
    }
  }

  lemma TakenOk(k: Table, t: nat)
    requires TableOk(k, {}, {}) && k.current < |k.procs| && k.procs[k.current].state == Runnable && t < NTYPES
    requires var p := k.procs[k.current];
      |p.boxes| == NTYPES && ((p.cont.Receiving? && t == p.cont.box) || (p.cont == Running && t != REPLY))
    ensures var k' := Put(k, k.current, Taken(k.procs[k.current], t));
      TableOk(k', {}, {}) && AlivePids(k'.procs) == AlivePids(k.procs)
  {
    var c := k.current;
    var p := Taken(k.procs[c], t);
    assert ProcOk(k.procs[c], AlivePids(k.procs), {}, k.nextPid);
    assert RunnableOk(p, AlivePids(k.procs), k.nextPid);
    hide Slots, RunnableOk, WaitingOk, Taken;
    TakenParts(k.procs[c], t);
    SlotsAfter(k, {}, c, p);
    CountsAfter(k, c, p, k.nprocs, k.nrunnable);
    PidsAfter(k, c, p);
    ProcsAfter(k, c, p, {});
  }

  lemma TakenParts(p: Proc, t: nat)
    requires t < |p.boxes|
    ensures var q := Taken(p, t);
      q.pid == p.pid && q.state == p.state && |q.boxes| == |p.boxes| && q.cont == Running
  {
  }

  // ---- creating a process ----

  function NewProc(k: Table, owner: nat, uid: nat): Proc {
    Proc(k.nextPid, uid, owner, Runnable, [Box(false, []), Box(false, []), Box(false, [])], 0, false, 0, false, Running)
  }

  /** proc_alloc: the first slot on the free list becomes a process */
  function Alloc(k: Table, owner: nat, uid: nat): Table
    requires k.free != [] && k.free[0] < |k.procs|
  {
    Put(k, k.free[0], NewProc(k, owner, uid)).(free := k.free[1..], nextPid := k.nextPid + 1,
        nprocs := k.nprocs + 1, nrunnable := k.nrunnable + 1)
  }

  /** proc_create_uid: the new process runs at once; the current one goes on the run queue. Without
      a parent, a free slot, or during a shutdown, nothing happens. */
  function Create(k: Table, owner: nat, uid: nat): (Table, nat)
    requires k.current < |k.procs| && forall j :: 0 <= j < |k.free| ==> k.free[j] < |k.procs|
  {
    var parent := Find(k, owner);
    if k.shutting || parent < 0 || k.free == [] then (k, 0)
    else
      var k1 := Alloc(k, owner, if k.procs[parent].uid != 0 then k.procs[parent].uid else uid);
      (k1.(runq := k1.runq + [k.current], current := k.free[0]), k.nextPid)
  }

  lemma FreeInTable(k: Table)
    requires Slots(k, {})
    ensures forall j :: 0 <= j < |k.free| ==> k.free[j] < |k.procs| && k.procs[k.free[j]].state == Free
  {
    forall j | 0 <= j < |k.free| ensures k.free[j] < |k.procs| && k.procs[k.free[j]].state == Free {
      assert SlotOk(k, {}, k.free[j]);
    }
  }

  lemma AllocAlive(k: Table, owner: nat, uid: nat)
    requires Slots(k, {}) && k.free != [] && k.free[0] < |k.procs|
    ensures AlivePids(Alloc(k, owner, uid).procs) == AlivePids(k.procs) + {k.nextPid}
  {
    FreeInTable(k);
    hide Slots;
    var i, k' := k.free[0], Alloc(k, owner, uid);
    var a, b := AlivePids(k'.procs), AlivePids(k.procs) + {k.nextPid};
    forall x ensures x in a <==> x in b {
      if x == k.nextPid {
        assert k'.procs[i].pid == x;
      } else {
        if x in a {
          var j: nat :| j < |k'.procs| && Alive(k'.procs[j]) && k'.procs[j].pid == x;
          assert k.procs[j] == k'.procs[j];
        }
        if x in b {
          var j: nat :| j < |k.procs| && Alive(k.procs[j]) && k.procs[j].pid == x;
          assert k.procs[j] == k'.procs[j];
        }
      }
    }
  }

  lemma AllocProcs(k: Table, owner: nat, uid: nat)
    requires Slots(k, {}) && Pids(k) && Procs(k, {}) && k.free != [] && k.free[0] < |k.procs| && k.nextPid > 0
    ensures AlivePids(Alloc(k, owner, uid).procs) == AlivePids(k.procs) + {k.nextPid}
    ensures Procs(Alloc(k, owner, uid), {}) && Pids(Alloc(k, owner, uid))
  {
    FreeInTable(k);
    AllocAlive(k, owner, uid);
    hide Slots;
    var i, k' := k.free[0], Alloc(k, owner, uid);
    var a := AlivePids(k'.procs);
    hide AlivePids;
    forall j: nat | j < |k'.procs| ensures ProcOk(k'.procs[j], a, {}, k'.nextPid) {
      if j != i {
        assert ProcOk(k.procs[j], AlivePids(k.procs), {}, k.nextPid);
      }
    }
  }

  lemma CreateSlots(k: Table, owner: nat, uid: nat)
    requires Slots(k, {}) && k.free != [] && k.free[0] < |k.procs| && k.procs[k.current].state == Runnable
    ensures var k1 := Alloc(k, owner, uid); Slots(k1.(runq := k1.runq + [k.current], current := k.free[0]), {})
  {
    FreeInTable(k);
    var k1, i := Alloc(k, owner, uid), k.free[0];
    var k' := k1.(runq := k1.runq + [k.current], current := i);
    assert SlotOk(k, {}, k.current) && SlotOk(k, {}, i);
    forall j: nat ensures SlotOk(k', {}, j) {
      assert SlotOk(k, {}, j);
      assert j in k.free <==> j == i || j in k.free[1..];
    }
  }

  /** A new process gets a pid never used before, and, unless its parent is the superuser, its
      parent's uid; clients of dead servers are not misled by it. */
  lemma CreateOk(k: Table, owner: nat, uid: nat)
    requires TableOk(k, {}, {}) && AtWork(k) && k.nextPid > 0
    ensures forall j :: 0 <= j < |k.free| ==> k.free[j] < |k.procs|
    ensures var (k', pid) := Create(k, owner, uid); var parent := Find(k, owner);
      && TableOk(k', {}, {}) && |k'.procs| == |k.procs| && k'.shutting == k.shutting && AtWork(k') && k'.nextPid >= k.nextPid
      && (pid == 0 ==> k' == k) && (pid == 0 <==> k.shutting || parent < 0 || k.free == [])
      && (pid > 0 ==> AlivePids(k'.procs) == AlivePids(k.procs) + {pid} && pid == k.nextPid < k'.nextPid
                      && k'.procs[k'.current].pid == pid
                      && (k.procs[parent].uid != 0 ==> k'.procs[k'.current].uid == k.procs[parent].uid))
  {
    FreeInTable(k);
    var parent := Find(k, owner);
    if !(k.shutting || parent < 0 || k.free == []) {
      var u := if k.procs[parent].uid != 0 then k.procs[parent].uid else uid;
      CreateSlots(k, owner, u);
      AllocProcs(k, owner, u);
      CountsAfter(k, k.free[0], NewProc(k, owner, u), k.nprocs + 1, k.nrunnable + 1);
    }
  }

  // ---- system calls ----

  /** proc_yield, and then what the process that gets the CPU was doing. */
  ghost function Resume(k: Table, curfew: nat, rounds: seq<Round>): (r: (Table, Outcome, Option<Receipt>))
    requires TableOk(k, {}, {}) && RoundsOk(rounds) && |rounds| > 0
    ensures TableOk(r.0, {}, {}) && |r.0.procs| == |k.procs| && r.0.nextPid == k.nextPid && r.0.shutting == k.shutting
    ensures AlivePids(r.0.procs) <= AlivePids(k.procs)
    ensures r.1 == Resumed ==> AtWork(r.0)
    ensures r.1 == Idle ==> r.0.nrunnable == 0
    ensures r.2.Some? ==> r.1 == Resumed && Proper(r.0, r.2.value)
  {
    var (k1, o) := Yield(k, curfew, rounds);
    if o != Resumed then (k1, o, None)
    else
      TakeOk(k1);
      var (k2, r) := Take(k1);
      (k2, o, r)
  }

  datatype Call =
    | SysSend(dst: nat, box: nat, contents: seq<int>)
    | SysRecv(box: nat, max: nat, now: nat)
    | SysRpc(dst: nat, contents: seq<int>)
    | SysExit(status: int)
    | SysKill(killer: nat, pid: nat, status: int)
    | SysYield
    | SysCreate(owner: nat, uid: nat)
    | Shutdown(now: nat)

  /** How a call ends: the tables, whether a process goes on and what it got from a mailbox, and
      the value returned to the caller if it goes on at once. */
  datatype Result = Result(table: Table, outcome: Outcome, receipt: Option<Receipt>, value: int)

  ghost predicate ResultOk(k: Table, r: Result) {
    && TableOk(r.table, {}, {}) && |r.table.procs| == |k.procs| && r.table.nextPid >= k.nextPid
    && (r.outcome == Resumed ==> AtWork(r.table))
    && (r.outcome == Idle ==> r.table.nrunnable == 0)
    && (r.receipt.Some? ==> r.outcome == Resumed && Proper(r.table, r.receipt.value))
  }

  ghost function Yielding(k: Table, curfew: nat, rounds: seq<Round>): (r: Result)
    requires TableOk(k, {}, {}) && RoundsOk(rounds) && |rounds| > 0
    ensures ResultOk(k, r)
  {
    var (k', o, r) := Resume(k, curfew, rounds);
    Result(k', o, r, 0)
  }

  /** Process dst waits for a reply from src. */
  ghost predicate Awaits(k: Table, dst: nat, src: nat) {
    var d := Find(k, dst);
    d >= 0 && k.procs[d].state == Waiting && k.procs[d].cont == Receiving(REPLY, src)
  }

  /** sys_send: processes send replies and events; requests are sent by sys_rpc only. */
  ghost function SendCall(k: Table, dst: nat, box: nat, contents: seq<int>): (r: Result)
    requires TableOk(k, {}, {}) && AtWork(k)
    ensures ResultOk(k, r)
    ensures r.value == 0 <==> ((box == EVENT && dst in AlivePids(k.procs)) || (box == REPLY && Awaits(k, dst, k.procs[k.current].pid)))
  {
    if box != REPLY && box != EVENT then Result(k, Resumed, None, -1)
    else
      var p := k.procs[k.current];
      var m := Message(p.pid, p.uid, contents);
      SendOk(k, {}, {}, m, dst, box);
      SendFrame(k, m, dst, box);
      SendWorks(k, m, dst, box);
      ReplyExactly(k, m, dst, box);
      var (k', ok) := Send(k, m, dst, box);
      Result(k', Resumed, None, if ok then 0 else -1)
  }

  /** The sender keeps running. */
  lemma SendWorks(k: Table, m: Message, dst: nat, t: nat)
    requires TableOk(k, {}, {}) && AtWork(k) && t < NTYPES && BoxesOk(k)
    ensures AtWork(Send(k, m, dst, t).0)
  {
    SendFrame(k, m, dst, t);
  }

  /** A reply is accepted exactly by a process that has named the sender and waits for it. */
  lemma ReplyExactly(k: Table, m: Message, dst: nat, t: nat)
    requires TableOk(k, {}, {}) && t < NTYPES && BoxesOk(k)
    ensures t == REPLY ==> (Send(k, m, dst, t).1 <==> Awaits(k, dst, m.src))
  {
    var d := Find(k, dst);
    if d >= 0 { assert ProcOk(k.procs[d], AlivePids(k.procs), {}, k.nextPid); }
  }

  /** sys_recv, for requests and events */
  ghost function RecvCall(k: Table, curfew: nat, box: nat, max: nat, now: nat, rounds: seq<Round>): (r: Result)
    requires TableOk(k, {}, {}) && AtWork(k) && RoundsOk(rounds) && |rounds| > 0
    ensures ResultOk(k, r)
  {
    if box != REQUEST && box != EVENT then Result(k, Resumed, None, -1)
    else
      TableBoxes(k, {}, {});
      var p := k.procs[k.current];
      if p.boxes[box].messages != [] then
        TakenOk(k, box);
        TakenParts(p, box);
        Result(Put(k, k.current, Taken(p, box)), Resumed, Some(Receipt(p.pid, box, 0, First(p, box))), 0)
      else
        BlockOk(k, box, 0, max, now);
        Yielding(Block(k, box, 0, max, now), curfew, rounds)
  }

  /** The current process names the server of its RPC. */
  function Name(k: Table, server: nat): Table
    requires k.current < |k.procs|
  {
    Put(k, k.current, k.procs[k.current].(server := server))
  }

  lemma NameOk(k: Table, server: nat)
    requires TableOk(k, {}, {}) && AtWork(k)
    ensures TableOk(Name(k, server), {}, {}) && AlivePids(Name(k, server).procs) == AlivePids(k.procs)
    ensures AtWork(Name(k, server))
  {
    var c := k.current;
    var p := k.procs[c].(server := server);
    assert ProcOk(k.procs[c], AlivePids(k.procs), {}, k.nextPid);
    assert RunnableOk(p, AlivePids(k.procs), k.nextPid);
    SlotsAfter(k, {}, c, p);
    CountsAfter(k, c, p, k.nprocs, k.nrunnable);
    PidsAfter(k, c, p);
    ProcsAfter(k, c, p, {});
  }

  lemma AliveBelow(k: Table, pid: nat)
    requires Pids(k) && pid in AlivePids(k.procs)
    ensures 0 < pid < k.nextPid
  {
    var j: nat :| j < |k.procs| && Alive(k.procs[j]) && k.procs[j].pid == pid;
  }

  /** Nothing is in the reply mailbox when an RPC starts. */
  lemma NoReplyYet(k: Table)
    requires TableOk(k, {}, {}) && AtWork(k)
    ensures |k.procs[k.current].boxes| == NTYPES && k.procs[k.current].boxes[REPLY].messages == []
  {
    assert ProcOk(k.procs[k.current], AlivePids(k.procs), {}, k.nextPid);
  }

  /** sys_rpc: fails at once to oneself or to a process that is not alive. */
  ghost function RpcCall(k: Table, curfew: nat, dst: nat, contents: seq<int>, rounds: seq<Round>): (r: Result)
    requires TableOk(k, {}, {}) && AtWork(k) && RoundsOk(rounds) && |rounds| > 0
    ensures ResultOk(k, r)
    ensures (dst == k.procs[k.current].pid || dst !in AlivePids(k.procs)) <==> r.value == -1
    ensures r.value == -1 ==> r.table == k && r.outcome == Resumed
  {
    var p := k.procs[k.current];
    if dst == p.pid then Result(k, Resumed, None, -1)
    else
      var m := Message(p.pid, p.uid, contents);
      SendOk(k, {}, {}, m, dst, REQUEST);
      SendFrame(k, m, dst, REQUEST);
      SendWorks(k, m, dst, REQUEST);
      var (k1, ok) := Send(k, m, dst, REQUEST);
      if !ok then Result(k, Resumed, None, -1)
      else
        AliveBelow(k, dst);
        NameOk(k1, dst);
        var k2 := Name(k1, dst);
        NoReplyYet(k2);
        BlockOk(k2, REPLY, dst, 0, 0);
        Yielding(Block(k2, REPLY, dst, 0, 0), curfew, rounds)
  }

  /** sys_exit */
  ghost function ExitCall(k: Table, curfew: nat, status: int, rounds: seq<Round>): (r: Result)
    requires TableOk(k, {}, {}) && AtWork(k) && RoundsOk(rounds) && |rounds| > 0
    ensures ResultOk(k, r)
    ensures k.procs[k.current].pid !in AlivePids(r.table.procs)
  {
    TermOk(k, k.current, status);
    Yielding(Term(k, k.current, status), curfew, rounds)
  }

  // ---- the current process survives the death of others ----

  ghost predicate Works(k: Table) {
    k.current < |k.procs| && (k.procs[k.current].state == Zombie || AtWork(k))
  }

  lemma {:induction false} FailKeeps(k: Table, pid: nat, i: nat, j: nat)
    requires i <= |k.procs| && BoxesOk(k) && j < |k.procs| && k.procs[j].state != Waiting
    ensures FailClients(k, pid, i).procs[j] == k.procs[j] && FailClients(k, pid, i).current == k.current
    decreases |k.procs| - i
  {
    if i < |k.procs| { FailKeeps(if Stranded(k.procs[i], pid) then WakeUp(k, i) else k, pid, i + 1, j); }
  }

  lemma TermWorks(k: Table, i: nat, status: int)
    requires Works(k) && i < |k.procs| && BoxesOk(k)
    ensures Works(Term(k, i, status)) && Term(k, i, status).procs[i].state == Zombie
    ensures Term(k, i, status).current == k.current
    ensures i != k.current && AtWork(k) ==> AtWork(Term(k, i, status))
  {
    var k1 := Mark(k, i);
    var owner := Find(k1, k.procs[i].owner);
    var m := Obituary(k.procs[i], status);
    if owner >= 0 {
      SendFrame(k1, m, k1.procs[owner].pid, EVENT);
      ZombieStays(k1, m, k1.procs[owner].pid, EVENT, i);
    }
    var k2 := if owner >= 0 then Send(k1, m, k1.procs[owner].pid, EVENT).0 else k1;
    ZombieSent(k1, m, if owner >= 0 then k1.procs[owner].pid else 0, EVENT);
    assert Works(k2) && (i != k.current && AtWork(k) ==> AtWork(k2));
    hide Send, FailClients, Mark;
    FailKeeps(k2, k.procs[i].pid, 0, k2.current);
    FailKeeps(k2, k.procs[i].pid, 0, i);
  }

  lemma ZombieSent(k: Table, m: Message, dst: nat, t: nat)
    requires t < NTYPES && BoxesOk(k) && Works(k)
    ensures Works(Send(k, m, dst, t).0) && (AtWork(k) ==> AtWork(Send(k, m, dst, t).0))
  {
    SendFrame(k, m, dst, t);
    if k.procs[k.current].state == Zombie { ZombieStays(k, m, dst, t, k.current); }
  }

  lemma ZapWorks(k: Table, killer: int, i: nat, status: int)
    requires Works(k) && i < |k.procs| && killer < |k.procs| && BoxesOk(k)
    ensures Works(Zap(k, killer, i, status)) && Zap(k, killer, i, status).current == k.current
    ensures AtWork(k) && Zap(k, killer, i, status).procs[i].state != Zombie ==> AtWork(Zap(k, killer, i, status))
  {
    hide Term;
    TermWorks(k, i, status);
  }

  lemma {:induction false} KillAllWorks(k: Table, killer: int, status: int, i: nat)
    requires Works(k) && i <= |k.procs| && killer < |k.procs| && BoxesOk(k)
    ensures Works(KillAll(k, killer, status, i)) && KillAll(k, killer, status, i).current == k.current
    decreases |k.procs| - i
  {
    if i < |k.procs| {
      hide Zap;
      ZapWorks(k, killer, i, status);
      KillAllWorks(if k.procs[i].state != Free && k.procs[i].interruptable then Zap(k, killer, i, status) else k, killer, status, i + 1);
    }
  }

  /** proc_kill */
  ghost function KillCall(k: Table, curfew: nat, killer: nat, pid: nat, status: int, rounds: seq<Round>): (r: Result)
    requires TableOk(k, {}, {}) && AtWork(k) && RoundsOk(rounds) && |rounds| > 0
    ensures ResultOk(k, r)
  {
    var s := Find(k, killer);
    var i := Find(k, pid);
    if s < 0 then Result(k, Resumed, None, 0)
    else if pid == 0 then
      KillAllOk(k, s, status, 0);
      KillAllWorks(k, s, status, 0);
      var k1 := KillAll(k, s, status, 0);
      if k1.procs[k1.current].state == Zombie then Yielding(k1, curfew, rounds) else Result(k1, Resumed, None, 0)
    else if i < 0 then Result(k, Resumed, None, 0)
    else
      ZapOk(k, s, i, status);
      var k1 := Zap(k, s, i, status);
      ZapWorks(k, s, i, status);
      if k1.procs[i].state == Zombie then Yielding(k1, curfew, rounds) else Result(k1, Resumed, None, 0)
  }
}
