/** What every call of a process does: whom it sends what, what it gets, whom it ends, and for how long it waits. */
module Accounts {
  import opened Processes
  import opened Messaging
  import opened Killing
  import opened Scheduling
  import opened Calls
  import opened KernelSteps
  import opened Ledgers

  /** How a call goes: what its caller did itself, and the tables then; if it gave up the CPU, for how many
      suspensions, what happened in them and when, and the tables when a process went on. */
  datatype Account = Account(did: seq<Note>, begun: Table, went: seq<Note>, times: set<nat>, handled: nat, woken: Table)

  // ---- getting a message ----

  /** A mailbox gives its oldest message; nothing if it is empty. */
  predicate Oldest(before: seq<Message>, answer: Option<Message>, after: seq<Message>) {
    match answer
    case Some(m) => before == [m] + after
    case None => before == [] && after == []
  }

  /** A process goes on with what it got from a mailbox; the others are as they were. */
  ghost predicate Got(p: Proc, q: Proc, box: nat, named: nat, r: Option<Receipt>) {
    && q == p.(boxes := q.boxes, cont := Running) && |p.boxes| == NTYPES && |q.boxes| == NTYPES && box < NTYPES
    && (forall t: nat :: t < NTYPES ==> q.boxes[t].waiting == p.boxes[t].waiting)
    && (forall t: nat :: t < NTYPES && t != box ==> q.boxes[t].messages == p.boxes[t].messages)
    && r.Some? && r.value == Receipt(p.pid, box, named, r.value.answer)
    && Oldest(p.boxes[box].messages, r.value.answer, q.boxes[box].messages)
  }

  /** Only the current process differs. */
  ghost predicate OnlyCurrent(k: Table, k': Table) {
    && k.current < |k.procs| && |k'.procs| == |k.procs| && k' == k.(procs := k'.procs)
    && forall i :: 0 <= i < |k.procs| && i != k.current ==> k'.procs[i] == k.procs[i]
  }

  /** The current process goes on where it was, or with what it waited for. */
  ghost predicate WentOnWith(k: Table, k': Table, r: Option<Receipt>) {
    && OnlyCurrent(k, k')
    && match k.procs[k.current].cont
       case Running => k' == k && r == None
       case Receiving(box, named) => Got(k.procs[k.current], k'.procs[k.current], box, named, r)
  }

  lemma TakeGets(k: Table)
    requires k.current < |k.procs| && |k.procs[k.current].boxes| == NTYPES
    requires k.procs[k.current].cont.Receiving? ==> k.procs[k.current].cont.box < NTYPES
    ensures WentOnWith(k, Take(k).0, Take(k).1)
  {
  }

  // ---- waiting ----

  /** A process waits for one mailbox; if there is a limit, until then. */
  ghost predicate Waits(p: Proc, q: Proc, box: nat, named: nat, max: nat, now: nat) {
    && q.pid == p.pid && q.uid == p.uid && q.owner == p.owner && q.interruptable == p.interruptable
    && |p.boxes| == NTYPES && |q.boxes| == NTYPES && box < NTYPES
    && q.state == Waiting && q.cont == Receiving(box, named) && (box == REPLY ==> q.server == named)
    && (forall t: nat :: t < NTYPES ==> (q.boxes[t].waiting <==> t == box) && q.boxes[t].messages == p.boxes[t].messages)
    && q.boxes[box].messages == []
    && (q.alarm <==> max != 0) && (max != 0 ==> q.exptime == now + max)
  }

  /** The others go on as noted, and the run queue grows at its end. */
  ghost predicate OthersWent(k: Table, k': Table, log: seq<Note>) {
    && |k'.procs| == |k.procs| && k'.shutting == k.shutting && k'.nextPid == k.nextPid && k'.current == k.current
    && (forall i :: 0 <= i < |k.procs| && i != k.current ==> Fate(k', k.procs[i], k'.procs[i], log, {}))
    && (forall n :: n in log ==> Lawful(k, n)) && Told(k', log) && k.runq <= k'.runq
  }

  // ---- the calls ----

  ghost predicate InUseAs(k: Table, pid: nat, s: nat) {
    s < |k.procs| && k.procs[s].state != Free && k.procs[s].pid == pid
  }

  /** The process waits for a reply from src. */
  ghost predicate Expects(k: Table, pid: nat, src: nat) {
    exists i: nat :: InUseAs(k, pid, i) && k.procs[i].state == Waiting && k.procs[i].cont == Receiving(REPLY, src)
  }

  ghost predicate Sends(k: Table, dst: nat, box: nat, contents: seq<int>, r: Result, a: Account)
    requires k.current < |k.procs|
  {
    var p := k.procs[k.current];
    && a.handled == 0 && r.receipt == None && (r.value == 0 || r.value == -1)
    && (r.value == 0 <==> (box == EVENT && !Gone(k, dst)) || (box == REPLY && Expects(k, dst, p.pid)))
    && a.did == (if r.value == 0 then [Sent(dst, box, Message(p.pid, p.uid, contents), Caller)] else [])
    && Went(k, a.begun, a.did, {}) && a.begun.current == k.current
  }

  ghost predicate Receives(k: Table, box: nat, max: nat, now: nat, r: Result, a: Account)
    requires k.current < |k.procs| == |a.begun.procs|
  {
    var p := k.procs[k.current];
    && a.did == [] && |p.boxes| == NTYPES
    && if box != REQUEST && box != EVENT then a.handled == 0 && a.begun == k && r.value == -1 && r.receipt == None
       else if p.boxes[box].messages != [] then
         a.handled == 0 && OnlyCurrent(k, a.begun) && Got(p, a.begun.procs[k.current], box, 0, r.receipt) && r.value == 0
       else a.handled > 0 && OthersWent(k, a.begun, []) && Waits(p, a.begun.procs[k.current], box, 0, max, now)
  }

  ghost predicate Asks(k: Table, dst: nat, contents: seq<int>, r: Result, a: Account)
    requires k.current < |k.procs| == |a.begun.procs|
  {
    var p := k.procs[k.current];
    if dst == p.pid || Gone(k, dst) then a.handled == 0 && a.begun == k && a.did == [] && r.value == -1 && r.receipt == None
    else
      && a.handled > 0 && a.did == [Sent(dst, REQUEST, Message(p.pid, p.uid, contents), Caller)]
      && OthersWent(k, a.begun, a.did) && Waits(p, a.begun.procs[k.current], REPLY, dst, 0, 0)
  }

  ghost predicate Exits(k: Table, status: int, a: Account)
    requires k.current < |k.procs| == |a.begun.procs|
  {
    var p := k.procs[k.current];
    && a.handled > 0 && a.did != [] && a.did[0] == Ended(p.pid, p.uid, p.owner, status, Itself)
    && (forall n :: n in a.did && n.Ended? ==> n == a.did[0]) && NoRumours(a.did)
    && Went(k, a.begun, a.did, {}) && a.begun.current == k.current && !Alive(a.begun.procs[k.current])
  }

  ghost predicate Kills(k: Table, s: nat, pid: nat, status: int, did: seq<Note>, k': Table)
    requires s < |k.procs|
  {
    var who := User(k.procs[s].pid, k.procs[s].uid);
    && KilledBy(did, who, status) && Went(k, k', did, {}) && k'.current == k.current
    && if pid == 0 then Picked(k, did) && Swept(k', 0, who)
       else
         && (forall n :: n in did && n.Ended? ==> n.pid == pid)
         && (who.uid == 0 || (exists i: nat :: InUseAs(k, pid, i) && k.procs[i].uid == who.uid) ==> Gone(k', pid))
  }

  ghost predicate Creates(k: Table, owner: nat, uid: nat, r: Result, a: Account) {
    && a.did == [] && a.handled == 0 && r.receipt == None
    && if k.shutting || (forall s: nat :: !InUseAs(k, owner, s)) || (forall i :: 0 <= i < |k.procs| ==> k.procs[i].state != Free)
       then a.begun == k && r.value == 0
       else r.value == k.nextPid && Fresh(k, a.begun, owner, uid)
  }

  /** A new process runs, with a pid that was never used, for its owner's uid unless that is the superuser. */
  ghost predicate Fresh(k: Table, k': Table, owner: nat, uid: nat) {
    && |k'.procs| == |k.procs| && k'.current < |k.procs| && k.procs[k'.current].state == Free
    && (forall i :: 0 <= i < |k.procs| && i != k'.current ==> k'.procs[i] == k.procs[i])
    && k'.nextPid == k.nextPid + 1 && k'.shutting == k.shutting && k'.runq == k.runq + [k.current]
    && var q := k'.procs[k'.current];
    && q.pid == k.nextPid && q.owner == owner && q.state == Runnable && q.cont == Running && !q.alarm && !q.interruptable
    && |q.boxes| == NTYPES && (forall t: nat :: t < NTYPES ==> q.boxes[t] == Box(false, []))
    && forall s: nat :: InUseAs(k, owner, s) ==> q.uid == if k.procs[s].uid != 0 then k.procs[s].uid else uid
  }

  /** What the caller does itself */
  ghost predicate Does(k: Table, c: Call, r: Result, a: Account)
    requires k.current < |k.procs|
  {
    && |a.begun.procs| == |k.procs|
    && match c
       case SysSend(dst, box, contents) => Sends(k, dst, box, contents, r, a)
       case SysRecv(box, max, now) => Receives(k, box, max, now, r, a)
       case SysRpc(dst, contents) => Asks(k, dst, contents, r, a)
       case SysExit(status) => Exits(k, status, a)
       case SysKill(killer, pid, status) =>
         (r.value == 0 || a.handled > 0) && (a.handled == 0 ==> r.receipt == None && Alive(a.begun.procs[k.current]))
         && if exists s: nat :: InUseAs(k, killer, s) then exists s: nat :: InUseAs(k, killer, s) && Kills(k, s, pid, status, a.did, a.begun)
            else a.handled == 0 && a.did == [] && a.begun == k
       case SysYield => a.handled > 0 && a.did == [] && a.begun == k
       case SysCreate(owner, uid) => Creates(k, owner, uid, r, a)
       case Shutdown(now) => a.handled == 0 && r.receipt == None && a.did == [] && a.begun == k.(shutting := true)
  }

  /** What happens until a process goes on */
  ghost predicate Goes(curfew: nat, rounds: seq<Round>, r: Result, a: Account) {
    if a.handled == 0 then r.outcome == Resumed && r.table == a.begun == a.woken && a.went == [] && a.times == {}
    else
      && During(rounds, a.handled, a.times) && TableOk(a.woken, {}, {})
      && Yielded(a.begun, a.woken, r.outcome, a.went, a.times, EventsOf(rounds[..a.handled]))
      && Ends(a.woken, r.outcome, curfew, a.times) && (r.outcome == Idle ==> a.handled == |rounds|)
      && if r.outcome == Resumed then WentOnWith(a.woken, r.table, r.receipt) else r.table == a.woken && r.receipt == None
  }

  ghost predicate Accounted(k: Table, curfew: nat, i: Input, r: Result, a: Account) {
    k.current < |k.procs| && Does(k, i.call, r, a) && Goes(curfew, i.rounds, r, a)
  }

  // ---- giving up the CPU ----

  lemma YieldingGoes(k: Table, curfew: nat, rounds: seq<Round>, did: seq<Note>) returns (a: Account)
    requires TableOk(k, {}, {}) && RoundsOk(rounds) && |rounds| > 0
    ensures a.did == did && a.begun == k && a.handled > 0
    ensures Goes(curfew, rounds, Yielding(k, curfew, rounds), a)
  {
    hide TableOk, Yield, Yielded, Take, During;
    var went, times, handled := YieldWent(k, curfew, rounds);
    var (k2, o) := Yield(k, curfew, rounds);
    a := Account(did, k, went, times, handled, k2);
    DuringSome(rounds, handled, times);
    if o == Resumed {
      TakeOk(k2);
      TakeGets(k2);
    }
  }

  lemma DuringSome(rounds: seq<Round>, handled: nat, times: set<nat>)
    requires During(rounds, handled, times)
    ensures 0 < handled <= |rounds|
  {
  }

  // ---- call by call ----

  lemma AliveIs(k: Table, pid: nat)
    ensures pid in AlivePids(k.procs) <==> !Gone(k, pid)
  {
  }

  lemma SendAccount(k: Table, dst: nat, box: nat, contents: seq<int>) returns (a: Account)
    requires TableOk(k, {}, {}) && AtWork(k)
    ensures var r := SendCall(k, dst, box, contents);
      && Sends(k, dst, box, contents, r, a)
      && r.outcome == Resumed && r.table == a.begun == a.woken && a.went == [] && a.times == {} && a.handled == 0
      && |a.begun.procs| == |k.procs|
  {
    SendCallIs(k, dst, box, contents);
    hide SendCall, Procs, Slots, Counts, Pids, ResultOk, ProcOk;
    var p := k.procs[k.current];
    var r := SendCall(k, dst, box, contents);
    var m := Message(p.pid, p.uid, contents);
    AliveIs(k, dst);
    ExpectsIs(k, dst, p.pid);
    WentNowhere(k);
    hide TableOk, Gone, AlivePids, Awaits, Expects, Went, Send;
    a := Account(if r.value == 0 then [Sent(dst, box, m, Caller)] else [], r.table, [], {}, 0, r.table);
    if box == REPLY || box == EVENT {
      SendFrame(k, m, dst, box);
      PidsOf(k);
      SendWent(k, m, dst, box, Caller);
    }
  }

  lemma SendCallIs(k: Table, dst: nat, box: nat, contents: seq<int>)
    requires TableOk(k, {}, {}) && AtWork(k)
    ensures BoxesOk(k)
    ensures var r := SendCall(k, dst, box, contents);
      if box != REPLY && box != EVENT then r == Result(k, Resumed, None, -1)
      else
        var s := Send(k, Message(k.procs[k.current].pid, k.procs[k.current].uid, contents), dst, box);
        r == Result(s.0, Resumed, None, if s.1 then 0 else -1)
  {
    TableBoxes(k, {}, {});
    hide TableOk, Send, AlivePids;
  }

  lemma ExpectsIs(k: Table, dst: nat, src: nat)
    requires TableOk(k, {}, {})
    ensures Awaits(k, dst, src) <==> Expects(k, dst, src)
  {
    PidsOf(k);
    FindIs(k, dst);
    hide TableOk;
    if Awaits(k, dst, src) {
      var d: nat := Find(k, dst);
      assert InUseAs(k, dst, d);
    }
  }

  lemma BlockWaits(k: Table, box: nat, named: nat, max: nat, now: nat)
    requires TableOk(k, {}, {}) && AtWork(k) && box < NTYPES && |k.procs[k.current].boxes| == NTYPES
    requires k.procs[k.current].boxes[box].messages == [] && (box == REPLY ==> k.procs[k.current].server == named)
    ensures var k' := Block(k, box, named, max, now);
      && Waits(k.procs[k.current], k'.procs[k.current], box, named, max, now)
      && |k'.procs| == |k.procs| && k'.shutting == k.shutting && k'.nextPid == k.nextPid && k'.current == k.current
      && k'.runq == k.runq && forall i :: 0 <= i < |k.procs| && i != k.current ==> k'.procs[i] == k.procs[i]
  {
    assert ProcOk(k.procs[k.current], AlivePids(k.procs), {}, k.nextPid);
  }

  lemma SameFate(k': Table, p: Proc)
    requires |p.boxes| == NTYPES
    ensures Fate(k', p, p, [], {})
  {
  }

  lemma FateLater(k: Table, k': Table, p: Proc, q: Proc, log: seq<Note>)
    requires Fate(k, p, q, log, {}) && forall x :: Gone(k, x) ==> Gone(k', x)
    ensures Fate(k', p, q, log, {})
  {
  }

  lemma RecvAccount(k: Table, curfew: nat, box: nat, max: nat, now: nat, rounds: seq<Round>) returns (a: Account)
    requires TableOk(k, {}, {}) && AtWork(k) && RoundsOk(rounds) && |rounds| > 0
    ensures |a.begun.procs| == |k.procs|
    ensures var r := RecvCall(k, curfew, box, max, now, rounds); Receives(k, box, max, now, r, a) && Goes(curfew, rounds, r, a)
  {
    RecvIs(k, curfew, box, max, now, rounds);
    hide TableOk, AtWork, RecvCall, Yielding, Goes, Taken, Block, OthersWent, Waits, Got, ResultOk, AlivePids;
    var p, r := k.procs[k.current], RecvCall(k, curfew, box, max, now, rounds);
    if (box == REQUEST || box == EVENT) && p.boxes[box].messages == [] {
      RecvBlocks(k, box, max, now);
      a := YieldingGoes(Block(k, box, 0, max, now), curfew, rounds, []);
    } else {
      if box == REQUEST || box == EVENT { TakenGot(p, box); }
      a := Account([], r.table, [], {}, 0, r.table);
      AtOnce(curfew, rounds, r, a);
    }
  }

  lemma RecvBlocks(k: Table, box: nat, max: nat, now: nat)
    requires TableOk(k, {}, {}) && AtWork(k) && box < NTYPES && box != REPLY && BoxesOk(k)
    requires k.procs[k.current].boxes[box].messages == []
    ensures var k' := Block(k, box, 0, max, now);
      OthersWent(k, k', []) && Waits(k.procs[k.current], k'.procs[k.current], box, 0, max, now)
  {
    hide TableOk, Block, Waits, Fate;
    BlockWaits(k, box, 0, max, now);
    var k' := Block(k, box, 0, max, now);
    forall i | 0 <= i < |k.procs| && i != k.current ensures Fate(k', k.procs[i], k'.procs[i], [], {}) {
      SameFate(k', k.procs[i]);
    }
  }

  lemma RecvIs(k: Table, curfew: nat, box: nat, max: nat, now: nat, rounds: seq<Round>)
    requires TableOk(k, {}, {}) && AtWork(k) && RoundsOk(rounds) && |rounds| > 0
    ensures BoxesOk(k) && k.current < |k.procs|
    ensures var p, r := k.procs[k.current], RecvCall(k, curfew, box, max, now, rounds);
      if box != REQUEST && box != EVENT then r == Result(k, Resumed, None, -1)
      else if p.boxes[box].messages != [] then
        r == Result(Put(k, k.current, Taken(p, box)), Resumed, Some(Receipt(p.pid, box, 0, First(p, box))), 0)
      else TableOk(Block(k, box, 0, max, now), {}, {}) && r == Yielding(Block(k, box, 0, max, now), curfew, rounds)
  {
    TableBoxes(k, {}, {});
    hide TableOk, Yielding, Taken, AlivePids;
    if (box == REQUEST || box == EVENT) && k.procs[k.current].boxes[box].messages == [] {
      BlockOk(k, box, 0, max, now);
    }
  }

  lemma TakenGot(p: Proc, box: nat)
    requires |p.boxes| == NTYPES && box < NTYPES && p.boxes[box].messages != []
    ensures Got(p, Taken(p, box), box, 0, Some(Receipt(p.pid, box, 0, First(p, box))))
  {
  }

  lemma AtOnce(curfew: nat, rounds: seq<Round>, r: Result, a: Account)
    requires r.outcome == Resumed && r.table == a.begun == a.woken && a.went == [] && a.times == {} && a.handled == 0
    ensures Goes(curfew, rounds, r, a)
  {
  }

  lemma RpcAccount(k: Table, curfew: nat, dst: nat, contents: seq<int>, rounds: seq<Round>) returns (a: Account)
    requires TableOk(k, {}, {}) && AtWork(k) && RoundsOk(rounds) && |rounds| > 0
    ensures |a.begun.procs| == |k.procs|
    ensures var r := RpcCall(k, curfew, dst, contents, rounds); Asks(k, dst, contents, r, a) && Goes(curfew, rounds, r, a)
  {
    hide TableOk, Yielding, Send, AlivePids, Goes, Gone, Waits, OthersWent, Went, ResultOk;
    var p, r := k.procs[k.current], RpcCall(k, curfew, dst, contents, rounds);
    AliveIs(k, dst);
    if dst != p.pid && dst in AlivePids(k.procs) {
      var m := Message(p.pid, p.uid, contents);
      TableBoxes(k, {}, {});
      SendOk(k, {}, {}, m, dst, REQUEST);
      SendFrame(k, m, dst, REQUEST);
      SendWorks(k, m, dst, REQUEST);
      PidsOf(k);
      SendWent(k, m, dst, REQUEST, Caller);
      NotFound(k, dst);
      var k1 := Send(k, m, dst, REQUEST).0;
      SendParts(k, m, dst, REQUEST);
      AliveBelow(k, dst);
      NameOk(k1, dst);
      var k2 := Name(k1, dst);
      NoReplyYet(k2);
      BlockOk(k2, REPLY, dst, 0, 0);
      BlockWaits(k2, REPLY, dst, 0, 0);
      var k3, log := Block(k2, REPLY, dst, 0, 0), [Sent(dst, REQUEST, m, Caller)];
      WentParts(k, k1, log, {});
      ThenOthers(k, k1, k3, log);
      RenamedWaits(p, k3.procs[k.current], dst);
      a := YieldingGoes(k3, curfew, rounds, log);
    } else {
      SendOk(k, {}, {}, Message(p.pid, p.uid, contents), dst, REQUEST);
      a := Account([], r.table, [], {}, 0, r.table);
      AtOnce(curfew, rounds, r, a);
    }
  }

  lemma RenamedWaits(p: Proc, q: Proc, dst: nat)
    requires Waits(p.(server := dst), q, REPLY, dst, 0, 0)
    ensures Waits(p, q, REPLY, dst, 0, 0)
  {
  }

  /** A process does not find itself under the pid of another one. */
  lemma NotFound(k: Table, dst: nat)
    requires AtWork(k) && Pids(k) && dst != k.procs[k.current].pid
    ensures Find(k, dst) != k.current
  {
    FindIs(k, dst);
  }

  lemma ThenOthers(k: Table, k1: Table, k3: Table, log: seq<Note>)
    requires Fates(k, k1, log, {}) && k1.current == k.current && k.runq <= k1.runq && |log| == 1 && log[0].Sent?
    requires log[0].from == Caller
    requires k.current < |k.procs| && k1.procs[k.current].state == Runnable
    requires |k3.procs| == |k1.procs| && k3.shutting == k1.shutting && k3.nextPid == k1.nextPid
    requires k3.current == k1.current
    requires k3.runq == k1.runq && forall i :: 0 <= i < |k1.procs| && i != k1.current ==> k3.procs[i] == k1.procs[i]
    requires k3.procs[k.current].pid == k1.procs[k.current].pid
    ensures OthersWent(k, k3, log)
  {
    forall x | Gone(k1, x) ensures Gone(k3, x) {
      assert Alive(k1.procs[k.current]);
    }
    forall i | 0 <= i < |k.procs| && i != k.current ensures Fate(k3, k.procs[i], k3.procs[i], log, {}) {
      FateLater(k1, k3, k.procs[i], k1.procs[i], log);
    }
  }

  lemma ExitAccount(k: Table, curfew: nat, status: int, rounds: seq<Round>) returns (a: Account)
    requires TableOk(k, {}, {}) && AtWork(k) && RoundsOk(rounds) && |rounds| > 0
    ensures |a.begun.procs| == |k.procs|
    ensures var r := ExitCall(k, curfew, status, rounds); Exits(k, status, a) && Goes(curfew, rounds, r, a)
  {
    AliveThen(k);
    ExitIs(k, curfew, status, rounds);
    hide TableOk, AtWork, ExitCall, Yielding, Term, Goes, Went, KilledBy, Lawful, Alive;
    var e := EndOf(k.procs[k.current], status, Itself);
    var log := TermWent(k, k.current, status, Itself);
    NotAlive(Term(k, k.current, status).procs[k.current]);
    OneDeath(log, e);
    assert log[0] == e;
    KilledByParts(log, Itself, status);
    a := YieldingGoes(Term(k, k.current, status), curfew, rounds, log);
  }

  lemma NotAlive(p: Proc)
    requires p.state == Zombie
    ensures !Alive(p)
  {
  }

  lemma ExitIs(k: Table, curfew: nat, status: int, rounds: seq<Round>)
    requires TableOk(k, {}, {}) && AtWork(k) && BoxesOk(k) && RoundsOk(rounds) && |rounds| > 0
    ensures var k' := Term(k, k.current, status);
      && TableOk(k', {}, {}) && k'.current == k.current && k'.procs[k.current].state == Zombie
      && ExitCall(k, curfew, status, rounds) == Yielding(k', curfew, rounds)
  {
    TermOk(k, k.current, status);
    hide TableOk, Yielding, Term, AlivePids;
  }

  lemma AliveThen(k: Table)
    requires TableOk(k, {}, {}) && AtWork(k)
    ensures Alive(k.procs[k.current]) && BoxesOk(k) && Pids(k)
    ensures forall status :: Lawful(k, EndOf(k.procs[k.current], status, Itself))
  {
    TableBoxes(k, {}, {});
  }

  lemma KilledByParts(log: seq<Note>, who: Killer, status: int)
    requires KilledBy(log, who, status)
    ensures NoRumours(log)
  {
  }

  lemma KillAccount(k: Table, curfew: nat, killer: nat, pid: nat, status: int, rounds: seq<Round>) returns (a: Account)
    requires TableOk(k, {}, {}) && AtWork(k) && RoundsOk(rounds) && |rounds| > 0
    ensures |a.begun.procs| == |k.procs| && k.current < |k.procs|
    ensures var r := KillCall(k, curfew, killer, pid, status, rounds);
      Does(k, SysKill(killer, pid, status), r, a) && Goes(curfew, rounds, r, a)
  {
    hide TableOk, Yielding, Zap, KillAll, AlivePids, Goes, Went, KilledBy, Kills;
    PidsOf(k);
    TableBoxes(k, {}, {});
    FindIs(k, killer);
    var s, r := Find(k, killer), KillCall(k, curfew, killer, pid, status, rounds);
    if s < 0 {
      a := Account([], k, [], {}, 0, k);
      AtOnce(curfew, rounds, r, a);
    } else {
      var log := KillBegins(k, s, pid, status);
      var k1 := Slain(k, s, pid, status);
      SlainOk(k, s, pid, status);
      assert InUseAs(k, killer, s);
      if (pid == 0 && k1.procs[k.current].state == Zombie) || (pid != 0 && Find(k, pid) >= 0 && k1.procs[Find(k, pid)].state == Zombie) {
        a := YieldingGoes(k1, curfew, rounds, log);
      } else {
        a := Account(log, k1, [], {}, 0, k1);
        AtOnce(curfew, rounds, r, a);
      }
    }
  }

  function Slain(k: Table, s: nat, pid: nat, status: int): (k': Table)
    requires BoxesOk(k) && s < |k.procs|
    ensures |k'.procs| == |k.procs|
  {
    if pid == 0 then KillAll(k, s, status, 0) else if Find(k, pid) < 0 then k else Zap(k, s, Find(k, pid), status)
  }

  lemma SlainOk(k: Table, s: nat, pid: nat, status: int)
    requires TableOk(k, {}, {}) && AtWork(k) && s < |k.procs| && BoxesOk(k)
    ensures var k' := Slain(k, s, pid, status);
      && TableOk(k', {}, {}) && k'.current == k.current && Works(k')
      && (pid != 0 && Find(k, pid) >= 0 && k'.procs[Find(k, pid)].state != Zombie ==> AtWork(k'))
      && (pid != 0 && Find(k, pid) < 0 ==> AtWork(k'))
  {
    hide TableOk, Zap, KillAll, AlivePids;
    if pid == 0 {
      KillAllOk(k, s, status, 0);
      KillAllWorks(k, s, status, 0);
    } else if Find(k, pid) >= 0 {
      ZapOk(k, s, Find(k, pid), status);
      ZapWorks(k, s, Find(k, pid), status);
    }
  }

  lemma KillBegins(k: Table, s: nat, pid: nat, status: int) returns (log: seq<Note>)
    requires TableOk(k, {}, {}) && AtWork(k) && s < |k.procs| && BoxesOk(k)
    ensures Kills(k, s, pid, status, log, Slain(k, s, pid, status))
  {
    hide TableOk, Zap, KillAll, Went, KilledBy, Gone, Fates;
    PidsOf(k);
    SlainOk(k, s, pid, status);
    FindIs(k, pid);
    var who, k' := User(k.procs[s].pid, k.procs[s].uid), Slain(k, s, pid, status);
    var i := Find(k, pid);
    log := [];
    if pid == 0 {
      log := KillAllWent(k, s, status, 0, who);
    } else if i < 0 {
      WentNowhere(k);
      NothingKilled(k, who, status);
      NotThere(k, pid);
    } else {
      log := ZapWent(k, s, i, status, who);
      WentPids(k, k', log, {});
      WentParts(k, k', log, {});
      WentSame(k, k', log, {}, i);
      if !Alive(k'.procs[i]) { GoneIf(k, k', log, i); }
    }
  }

  lemma NotThere(k: Table, pid: nat)
    requires forall i :: 0 <= i < |k.procs| && k.procs[i].state != Free ==> k.procs[i].pid != pid
    ensures Gone(k, pid)
  {
  }

  lemma GoneIf(k: Table, k': Table, log: seq<Note>, i: nat)
    requires Fates(k, k', log, {}) && Pids(k) && i < |k.procs| && k.procs[i].state != Free && !Alive(k'.procs[i])
    ensures Gone(k', k.procs[i].pid)
  {
    forall j | 0 <= j < |k'.procs| && Alive(k'.procs[j]) ensures k'.procs[j].pid != k.procs[i].pid {
      assert Fate(k', k.procs[j], k'.procs[j], log, {});
    }
  }

  lemma CreateAccount(k: Table, curfew: nat, owner: nat, uid: nat, rounds: seq<Round>) returns (a: Account)
    requires TableOk(k, {}, {}) && AtWork(k) && k.nextPid > 0
    ensures |a.begun.procs| == |k.procs|
    ensures var r := CreateCall(k, owner, uid); Creates(k, owner, uid, r, a) && Goes(curfew, rounds, r, a)
  {
    var r := CreateCall(k, owner, uid);
    a := Account([], r.table, [], {}, 0, r.table);
    PidsOf(k);
    FindIs(k, owner);
    NoneFree(k);
    CreateIs(k, owner, uid);
    hide TableOk, AlivePids, CreateCall, Create, Fresh, Pids, ResultOk;
    if Find(k, owner) >= 0 { assert InUseAs(k, owner, Find(k, owner)); }
    if !k.shutting && Find(k, owner) >= 0 && k.free != [] { CreateFresh(k, owner, uid); }
  }

  lemma CreateIs(k: Table, owner: nat, uid: nat)
    requires TableOk(k, {}, {}) && AtWork(k) && k.nextPid > 0
    ensures forall j :: 0 <= j < |k.free| ==> k.free[j] < |k.procs|
    ensures var c := Create(k, owner, uid); CreateCall(k, owner, uid) == Result(c.0, Resumed, None, c.1)
    ensures |Create(k, owner, uid).0.procs| == |k.procs|
    ensures k.shutting || Find(k, owner) < 0 || k.free == [] ==> Create(k, owner, uid) == (k, 0)
  {
    CreateOk(k, owner, uid);
    hide TableOk, AlivePids, Alloc;
  }

  lemma NoneFree(k: Table)
    requires TableOk(k, {}, {})
    ensures k.free == [] <==> forall i :: 0 <= i < |k.procs| ==> k.procs[i].state != Free
  {
    if k.free != [] { assert SlotOk(k, {}, k.free[0]); }
    forall i: nat | i < |k.procs| && k.procs[i].state == Free ensures k.free != [] { assert SlotOk(k, {}, i); }
  }

  lemma CreateFresh(k: Table, owner: nat, uid: nat)
    requires TableOk(k, {}, {}) && AtWork(k) && !k.shutting && Find(k, owner) >= 0 && k.free != []
    ensures forall j :: 0 <= j < |k.free| ==> k.free[j] < |k.procs|
    ensures Create(k, owner, uid).1 == k.nextPid && Fresh(k, Create(k, owner, uid).0, owner, uid)
  {
    PidsOf(k);
    FindIs(k, owner);
    FreeInTable(k);
    hide TableOk;
  }

  // ---- any call ----

  /** Every call goes as its account says. */
  lemma CallAccount(k: Table, curfew: nat, i: Input) returns (a: Account)
    requires TableOk(k, {}, {}) && AtWork(k) && k.nextPid > 0 && InputOk(i)
    ensures Accounted(k, curfew, i, After(k, curfew, i), a)
  {
    hide TableOk, Goes, Went, Sends, Receives, Asks, Exits, Creates, Kills, SendCall, RecvCall, RpcCall, ExitCall,
         KillCall,
         CreateCall, Yielding, ResultOk, InUseAs;
    match i.call {
      case SysSend(dst, box, contents) =>
        a := SendAccount(k, dst, box, contents);
        AtOnce(curfew, i.rounds, SendCall(k, dst, box, contents), a);
      case SysRecv(box, max, now) => a := RecvAccount(k, curfew, box, max, now, i.rounds);
      case SysRpc(dst, contents) => a := RpcAccount(k, curfew, dst, contents, i.rounds);
      case SysExit(status) => a := ExitAccount(k, curfew, status, i.rounds);
      case SysKill(killer, pid, status) => a := KillAccount(k, curfew, killer, pid, status, i.rounds);
      case SysYield => a := YieldingGoes(k, curfew, i.rounds, []);
      case SysCreate(owner, uid) => a := CreateAccount(k, curfew, owner, uid, i.rounds);
      case Shutdown(now) =>
        var k' := k.(shutting := true);
        ShutdownOk(k);
        a := Account([], k', [], {}, 0, k');
        AtOnce(curfew, i.rounds, Result(k', Resumed, None, 0), a);
    }
  }
}
