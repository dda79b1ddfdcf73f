/** Whole runs: messages come in the order in which they were sent, waits end when they should, and everyone gets
    its turn. */
module Histories {
  import opened Processes
  import opened Messaging
  import opened Killing
  import opened Scheduling
  import opened Calls
  import opened KernelSteps
  import opened Ledgers
  import opened Accounts

  // ---- in order ----

  /** What a process has got from a mailbox, in order */
  function Received(got: seq<Receipt>, pid: nat, box: nat): seq<Message> {
    if got == [] then [] else
      var rest, r := Received(got[..|got| - 1], pid, box), got[|got| - 1];
      if r.pid == pid && r.box == box && r.answer.Some? then rest + [r.answer.value] else rest
  }

  lemma {:induction false} ReceivedTwice(a: seq<Receipt>, b: seq<Receipt>, pid: nat, box: nat)
    ensures Received(a + b, pid, box) == Received(a, pid, box) + Received(b, pid, box)
    decreases |b|
  {
    if b == [] {
      assert a + b == a;
    } else {
      var n := |b| - 1;
      ReceivedTwice(a, b[..n], pid, box);
      assert (a + b)[..|a + b| - 1] == a + b[..n];
    }
  }

  lemma ReceivedOne(r: Receipt, pid: nat, box: nat)
    ensures Received([r], pid, box) == if r.pid == pid && r.box == box && r.answer.Some? then [r.answer.value] else []
  {
    assert [r][..0] == [];
  }

  lemma {:induction false} NoneReceived(got: seq<Receipt>, pid: nat, box: nat)
    requires forall r :: r in got ==> r.pid != pid
    ensures Received(got, pid, box) == []
  {
    if got != [] { NoneReceived(got[..|got| - 1], pid, box); }
  }

  lemma {:induction false} NoneArrived(log: seq<Note>, pid: nat, box: nat)
    requires forall n :: n in log && n.Sent? ==> n.pid != pid
    ensures Arrived(log, pid, box) == []
  {
    if log != [] { NoneArrived(log[..|log| - 1], pid, box); }
  }

  /** What is in a mailbox of the process with this pid, if p is that process */
  function Held(p: Proc, pid: nat, box: nat): seq<Message>
    requires box < |p.boxes|
  {
    if Alive(p) && p.pid == pid then p.boxes[box].messages else []
  }

  /** For each mailbox of a process, what was there and what has arrived since is what it has got and what is
      there now, in this order. A process that was not there before is a new one. */
  ghost predicate Squared(next: nat, p: Proc, q: Proc, log: seq<Note>, got: seq<Receipt>) {
    Alive(q) ==>
      && |p.boxes| == NTYPES && |q.boxes| == NTYPES && ((Alive(p) && p.pid == q.pid) || q.pid >= next)
      && forall t: nat :: t < NTYPES ==>
        Held(p, q.pid, t) + Arrived(log, q.pid, t) == Received(got, q.pid, t) + q.boxes[t].messages
  }

  ghost predicate InOrder(k: Table, k': Table, log: seq<Note>, got: seq<Receipt>) {
    && |k'.procs| == |k.procs| && k.nextPid <= k'.nextPid
    && (forall n :: n in log && n.Sent? ==> n.pid < k'.nextPid) && (forall r :: r in got ==> r.pid < k'.nextPid)
    && forall i :: 0 <= i < |k.procs| ==> Squared(k.nextPid, k.procs[i], k'.procs[i], log, got)
  }

  lemma SquaredOn(next: nat, middle: nat, p: Proc, m: Proc, q: Proc, a: seq<Note>, b: seq<Note>, g: seq<Receipt>,
          h: seq<Receipt>)
    requires Squared(next, p, m, a, g) && Squared(middle, m, q, b, h) && next <= middle
    requires (Alive(p) ==> p.pid < middle) && (Alive(q) ==> |p.boxes| == NTYPES)
    requires (forall n :: n in a && n.Sent? ==> n.pid < middle) && (forall r :: r in g ==> r.pid < middle)
    ensures Squared(next, p, q, a + b, g + h)
  {
    if Alive(q) {
      forall t: nat | t < NTYPES
        ensures Held(p, q.pid, t) + Arrived(a + b, q.pid, t) == Received(g + h, q.pid, t) + q.boxes[t].messages
      {
        ArrivedTwice(a, b, q.pid, t);
        ReceivedTwice(g, h, q.pid, t);
        if !(Alive(m) && m.pid == q.pid) {
          NoneArrived(a, q.pid, t);
          NoneReceived(g, q.pid, t);
        }
        hide Arrived, Received;
        Regroup(Held(p, q.pid, t), Arrived(a, q.pid, t), Arrived(b, q.pid, t), Received(g, q.pid, t), Received(h, q.pid, t),
                Held(m, q.pid, t), q.boxes[t].messages);
      }
    }
  }

  lemma Regroup(p: seq<Message>, a: seq<Message>, b: seq<Message>, g: seq<Message>, h: seq<Message>, m: seq<Message>,
          q: seq<Message>)
    requires p + a == g + m && m + b == h + q
    ensures p + (a + b) == (g + h) + q
  {
    assert p + (a + b) == (p + a) + b == g + (m + b) == (g + h) + q;
  }

  lemma InOrderOn(k: Table, k1: Table, k2: Table, a: seq<Note>, b: seq<Note>, g: seq<Receipt>, h: seq<Receipt>)
    requires Pids(k) && BoxesOk(k) && InOrder(k, k1, a, g) && InOrder(k1, k2, b, h)
    ensures InOrder(k, k2, a + b, g + h)
  {
    forall i | 0 <= i < |k.procs| ensures Squared(k.nextPid, k.procs[i], k2.procs[i], a + b, g + h) {
      SquaredOn(k.nextPid, k1.nextPid, k.procs[i], k1.procs[i], k2.procs[i], a, b, g, h);
    }
  }

  // ---- step by step ----

  lemma FateSquared(next: nat, k': Table, p: Proc, q: Proc, log: seq<Note>, times: set<nat>)
    requires Fate(k', p, q, log, times)
    ensures Squared(next, p, q, log, [])
  {
    hide Arrived;
  }

  lemma FatesInOrder(k: Table, k': Table, log: seq<Note>, times: set<nat>)
    requires Fates(k, k', log, times)
    ensures InOrder(k, k', log, [])
  {
    forall i | 0 <= i < |k.procs| ensures Squared(k.nextPid, k.procs[i], k'.procs[i], log, []) {
      FateSquared(k.nextPid, k', k.procs[i], k'.procs[i], log, times);
    }
    forall n | n in log && n.Sent? ensures n.pid < k'.nextPid {
      assert Lawful(k, n);
    }
  }

  lemma BlockedInOrder(k: Table, k': Table, log: seq<Note>, box: nat, named: nat, max: nat, now: nat)
    requires OthersWent(k, k', log) && AtWork(k) && Waits(k.procs[k.current], k'.procs[k.current], box, named, max, now)
    requires forall n :: n in log && n.Sent? ==> n.pid != k.procs[k.current].pid
    ensures InOrder(k, k', log, [])
  {
    var p, q := k.procs[k.current], k'.procs[k.current];
    forall i | 0 <= i < |k.procs| ensures Squared(k.nextPid, k.procs[i], k'.procs[i], log, []) {
      if i == k.current {
        forall t: nat | t < NTYPES ensures Arrived(log, p.pid, t) == [] { NoneArrived(log, p.pid, t); }
        hide Arrived;
      } else {
        FateSquared(k.nextPid, k', k.procs[i], k'.procs[i], log, {});
      }
    }
    forall n | n in log && n.Sent? ensures n.pid < k'.nextPid {
      assert Lawful(k, n);
    }
  }

  lemma GotSquared(next: nat, p: Proc, q: Proc, box: nat, named: nat, r: Option<Receipt>)
    requires Got(p, q, box, named, r)
    ensures Squared(next, p, q, [], [r.value])
  {
    forall t: nat ensures Received([r.value], p.pid, t) == if t == box && r.value.answer.Some? then [r.value.answer.value] else [] {
      ReceivedOne(r.value, p.pid, t);
    }
    hide Received;
  }

  lemma GotInOrder(k: Table, k': Table, box: nat, named: nat, r: Option<Receipt>)
    requires OnlyCurrent(k, k') && Got(k.procs[k.current], k'.procs[k.current], box, named, r) && BoxesOk(k)
    requires Pids(k) && k.procs[k.current].state != Free
    ensures InOrder(k, k', [], [r.value])
  {
    forall i | 0 <= i < |k.procs| ensures Squared(k.nextPid, k.procs[i], k'.procs[i], [], [r.value]) {
      if i == k.current {
        GotSquared(k.nextPid, k.procs[i], k'.procs[i], box, named, r);
      } else {
        forall t: nat ensures Alive(k.procs[i]) ==> Received([r.value], k.procs[i].pid, t) == [] {
          ReceivedOne(r.value, k.procs[i].pid, t);
        }
        hide Received;
      }
    }
  }

  lemma FreshInOrder(k: Table, k': Table, owner: nat, uid: nat)
    requires Fresh(k, k', owner, uid) && BoxesOk(k)
    ensures InOrder(k, k', [], [])
  {
    forall i | 0 <= i < |k.procs| ensures Squared(k.nextPid, k.procs[i], k'.procs[i], [], []) {
    }
  }

  lemma StillInOrder(k: Table, k': Table)
    requires BoxesOk(k) && k'.procs == k.procs && k'.nextPid == k.nextPid
    ensures InOrder(k, k', [], [])
  {
  }

  function Receipts(r: Option<Receipt>): seq<Receipt> {
    if r.Some? then [r.value] else []
  }

  /** What the caller does itself keeps the order. */
  lemma DoesInOrder(k: Table, c: Call, r: Result, a: Account)
    requires TableOk(k, {}, {}) && AtWork(k) && Does(k, c, r, a)
    ensures InOrder(k, a.begun, a.did, if a.handled == 0 then Receipts(r.receipt) else [])
  {
    TableBoxes(k, {}, {});
    PidsOf(k);
    StillInOrder(k, k);
    var p := k.procs[k.current];
    hide TableOk, InOrder, Fates, Waits, Got, Fresh, Kills;
    match c {
      case SysSend(dst, box, contents) => WentInOrder(k, a.begun, a.did);
      case SysRecv(box, max, now) =>
        if a.handled > 0 { BlockedInOrder(k, a.begun, [], box, 0, max, now); }
        else if box == REQUEST || box == EVENT { GotInOrder(k, a.begun, box, 0, r.receipt); }
      case SysRpc(dst, contents) =>
        if a.handled > 0 { BlockedInOrder(k, a.begun, a.did, REPLY, dst, 0, 0); }
      case SysExit(status) => WentInOrder(k, a.begun, a.did);
      case SysKill(killer, pid, status) => KillInOrder(k, killer, pid, status, r, a);
      case SysYield =>
      case SysCreate(owner, uid) => if r.value != 0 { FreshInOrder(k, a.begun, owner, uid); }
      case Shutdown(now) => StillInOrder(k, a.begun);
    }
  }

  lemma WentInOrder(k: Table, k': Table, log: seq<Note>)
    requires Went(k, k', log, {})
    ensures InOrder(k, k', log, [])
  {
    FatesInOrder(k, k', log, {});
  }

  lemma KillInOrder(k: Table, killer: nat, pid: nat, status: int, r: Result, a: Account)
    requires BoxesOk(k) && k.current < |k.procs| && Does(k, SysKill(killer, pid, status), r, a)
    ensures InOrder(k, a.begun, a.did, [])
  {
    hide InOrder;
    StillInOrder(k, k);
    if exists s: nat :: InUseAs(k, killer, s) {
      var s: nat :| InUseAs(k, killer, s) && Kills(k, s, pid, status, a.did, a.begun);
      WentInOrder(k, a.begun, a.did);
    }
  }

  lemma GoesParts(curfew: nat, rounds: seq<Round>, r: Result, a: Account)
    requires Goes(curfew, rounds, r, a) && a.handled > 0
    ensures Fates(a.begun, a.woken, a.went, a.times) && TableOk(a.woken, {}, {})
    ensures if r.outcome == Resumed then WentOnWith(a.woken, r.table, r.receipt) else r.table == a.woken && r.receipt == None
  {
  }

  /** So does what happens until a process goes on. */
  lemma GoesInOrder(curfew: nat, rounds: seq<Round>, r: Result, a: Account)
    requires Goes(curfew, rounds, r, a) && a.handled > 0
    ensures InOrder(a.begun, a.woken, a.went, [])
    ensures if r.receipt == None then r.table == a.woken else InOrder(a.woken, r.table, [], [r.receipt.value])
  {
    GoesParts(curfew, rounds, r, a);
    hide Goes, Fates, TableOk, InOrder, Got, Pids;
    FatesInOrder(a.begun, a.woken, a.went, a.times);
    var k := a.woken;
    TableBoxes(k, {}, {});
    PidsOf(k);
    CurrentIn(k, {});
    if r.receipt.Some? {
      var cont := k.procs[k.current].cont;
      GotInOrder(k, r.table, cont.box, cont.named, r.receipt);
    }
  }

  lemma GoesAtOnce(curfew: nat, rounds: seq<Round>, r: Result, a: Account)
    requires Goes(curfew, rounds, r, a) && a.handled == 0
    ensures r.outcome == Resumed && r.table == a.begun && a.went == []
  {
  }

  /** One step, from a process that runs to the next */
  lemma StepInOrder(k: Table, curfew: nat, i: Input, r: Result, a: Account)
    requires TableOk(k, {}, {}) && AtWork(k) && Accounted(k, curfew, i, r, a)
    ensures InOrder(k, r.table, a.did + a.went, Receipts(r.receipt))
  {
    DoesInOrder(k, i.call, r, a);
    TableBoxes(k, {}, {});
    PidsOf(k);
    hide TableOk, InOrder, Does, Goes;
    if a.handled == 0 {
      GoesAtOnce(curfew, i.rounds, r, a);
      assert a.did + [] == a.did;
    } else {
      GoesInOrder(curfew, i.rounds, r, a);
      ThreeInOrder(k, a.begun, a.woken, r.table, a.did, a.went, r.receipt);
    }
  }

  lemma ThreeInOrder(k: Table, k1: Table, k2: Table, k3: Table, a: seq<Note>, b: seq<Note>, r: Option<Receipt>)
    requires Pids(k) && BoxesOk(k) && InOrder(k, k1, a, []) && InOrder(k1, k2, b, [])
    requires if r == None then k3 == k2 else InOrder(k2, k3, [], [r.value])
    ensures InOrder(k, k3, a + b, Receipts(r))
  {
    hide InOrder, Pids, BoxesOk;
    var none: seq<Receipt>, still: seq<Note> := [], [];
    InOrderOn(k, k1, k2, a, b, none, none);
    assert none + none == none;
    if r.Some? {
      InOrderOn(k, k2, k3, a + b, still, none, [r.value]);
      assert (a + b) + still == a + b && none + [r.value] == [r.value];
    }
  }

  // ---- runs ----

  /** There is an account of each step of a run. */
  ghost predicate Recorded(k: Table, curfew: nat, inputs: seq<Input>, results: seq<Result>, accounts: seq<Account>)
    decreases |inputs|
  {
    |accounts| == |results| &&
    if inputs == [] || results == [] then results == []
    else
      && Accounted(k, curfew, inputs[0], results[0], accounts[0])
      && Recorded(results[0].table, CurfewAfter(curfew, inputs[0]), inputs[1..], results[1..], accounts[1..])
  }

  lemma {:induction false} TraceRecorded(k: Table, curfew: nat, inputs: seq<Input>) returns (accounts: seq<Account>)
    requires TableOk(k, {}, {}) && AtWork(k) && k.nextPid > 0 && forall j :: 0 <= j < |inputs| ==> InputOk(inputs[j])
    ensures Recorded(k, curfew, inputs, Trace(k, curfew, inputs), accounts)
    decreases |inputs|
  {
    hide TableOk, AtWork, After, Accounted;
    accounts := [];
    if inputs != [] {
      var r := After(k, curfew, inputs[0]);
      var a := CallAccount(k, curfew, inputs[0]);
      if r.outcome != Resumed {
        accounts := [a];
      } else {
        var rest := TraceRecorded(r.table, CurfewAfter(curfew, inputs[0]), inputs[1..]);
        accounts := [a] + rest;
        assert accounts[1..] == rest;
        assert Trace(k, curfew, inputs)[1..] == Trace(r.table, CurfewAfter(curfew, inputs[0]), inputs[1..]);
      }
    }
  }

  /** All that was sent, and all that was got, in a run */
  function LogOf(accounts: seq<Account>): seq<Note> {
    if accounts == [] then [] else accounts[0].did + accounts[0].went + LogOf(accounts[1..])
  }

  function ReceiptsOf(results: seq<Result>): seq<Receipt> {
    if results == [] then [] else Receipts(results[0].receipt) + ReceiptsOf(results[1..])
  }

  function Last(k: Table, results: seq<Result>): Table {
    if results == [] then k else results[|results| - 1].table
  }

  /** The first step of a run, and the rest of it */
  lemma RunUnfolds(k: Table, curfew: nat, inputs: seq<Input>, accounts: seq<Account>) returns (rest: seq<Result>)
    requires TableOk(k, {}, {}) && AtWork(k) && k.nextPid > 0 && forall j :: 0 <= j < |inputs| ==> InputOk(inputs[j])
    requires Recorded(k, curfew, inputs, Trace(k, curfew, inputs), accounts)
    ensures var results := Trace(k, curfew, inputs);
      if inputs == [] then results == [] && Last(k, results) == k && LogOf(accounts) == [] && ReceiptsOf(results) == []
      else
        var r := After(k, curfew, inputs[0]);
        && results == [r] + rest && accounts != [] && Accounted(k, curfew, inputs[0], r, accounts[0])
        && Last(k, results) == Last(r.table, rest)
        && var a := accounts[0];
        if r.outcome == Resumed then
          && LogOf(accounts) == a.did + a.went + LogOf(accounts[1..])
          && ReceiptsOf(results) == Receipts(r.receipt) + ReceiptsOf(rest)
          && AtWork(r.table) && rest == Trace(r.table, CurfewAfter(curfew, inputs[0]), inputs[1..])
          && Recorded(r.table, CurfewAfter(curfew, inputs[0]), inputs[1..], rest, accounts[1..])
        else
          rest == [] && LogOf(accounts) == a.did + a.went && ReceiptsOf(results) == Receipts(r.receipt) && Last(k, results) == r.table
  {
    hide TableOk, AtWork, After, Accounted;
    rest := [];
    if inputs != [] {
      var r := After(k, curfew, inputs[0]);
      if r.outcome == Resumed { rest := Trace(r.table, CurfewAfter(curfew, inputs[0]), inputs[1..]); }
      var results := [r] + rest;
      assert results[1..] == rest;
      if r.outcome != Resumed { assert accounts[1..] == []; }
    }
  }

  /** Along any run each process gets the messages of each mailbox in the order in which they were accepted, each
      of them once: what it has got, followed by what is still there, is what was there followed by all that has
      arrived. */
  lemma {:induction false} RunInOrder(k: Table, curfew: nat, inputs: seq<Input>, accounts: seq<Account>)
    requires TableOk(k, {}, {}) && AtWork(k) && k.nextPid > 0 && forall j :: 0 <= j < |inputs| ==> InputOk(inputs[j])
    requires Recorded(k, curfew, inputs, Trace(k, curfew, inputs), accounts)
    ensures var results := Trace(k, curfew, inputs); InOrder(k, Last(k, results), LogOf(accounts), ReceiptsOf(results))
    decreases |inputs|
  {
    hide TableOk, AtWork, After, Accounted, InOrder, LogOf, ReceiptsOf, Last, Recorded, Trace, Receipts;
    TableBoxes(k, {}, {});
    PidsOf(k);
    StillInOrder(k, k);
    var rest := RunUnfolds(k, curfew, inputs, accounts);
    if inputs != [] {
      var r, a := After(k, curfew, inputs[0]), accounts[0];
      StepInOrder(k, curfew, inputs[0], r, a);
      if r.outcome == Resumed {
        RunInOrder(r.table, CurfewAfter(curfew, inputs[0]), inputs[1..], accounts[1..]);
        InOrderOn(k, r.table, Last(r.table, rest), a.did + a.went, LogOf(accounts[1..]), Receipts(r.receipt), ReceiptsOf(rest));
      }
    }
  }

  // ---- in time ----

  /** The process waits, or is about to go on, in a call for a mailbox; with nothing in that (and it is not for
      replies) only if there is a limit, and one of these times was past it. */
  ghost predicate Pending(p: Proc, box: nat, named: nat, max: nat, due: nat, times: set<nat>) {
    && |p.boxes| == NTYPES && box < NTYPES && Alive(p) && p.cont == Receiving(box, named)
    && (p.state == Waiting ==>
      && (forall t: nat :: t < NTYPES ==> (p.boxes[t].waiting <==> t == box))
      && (p.alarm <==> max != 0) && (max != 0 ==> p.exptime == due))
    && (p.state == Runnable && p.boxes[box].messages == [] && box != REPLY ==> Overdue(max, due, times))
  }

  ghost predicate Overdue(max: nat, due: nat, times: set<nat>) {
    max != 0 && exists now :: now in times && due <= now
  }

  lemma PendingOn(k': Table, p: Proc, q: Proc, log: seq<Note>, box: nat, named: nat, max: nat, due: nat, s: set<nat>,
          t: set<nat>)
    requires Pending(p, box, named, max, due, s) && Fate(k', p, q, log, t) && Alive(q)
    ensures Pending(q, box, named, max, due, s + t)
  {
    hide Arrived, Gone;
    if p.state == Waiting && q.state == Runnable && q.boxes[box].messages == [] && box != REPLY {
      assert Woke(k', p, log, t);
      assert forall b: nat :: b < NTYPES && p.boxes[b].waiting ==> b == box;
    }
  }

  /** What a process got ends its wait as it should. */
  ghost predicate EndsWait(r: Receipt, box: nat, named: nat, max: nat, due: nat, times: set<nat>) {
    r.box == box && r.named == named && (r.answer == None && box != REPLY ==> Overdue(max, due, times))
  }

  /** After a step: the process in slot i is dead, or its wait is over, or it still waits. */
  ghost predicate StillPending(pid: nat, i: nat, r: Result, box: nat, named: nat, max: nat, due: nat, times: set<nat>) {
    i < |r.table.procs| && r.table.procs[i].pid == pid &&
    (Alive(r.table.procs[i]) ==>
      if r.receipt.Some? && r.receipt.value.pid == pid then EndsWait(r.receipt.value, box, named, max, due, times)
      else Pending(r.table.procs[i], box, named, max, due, times))
  }

  lemma GoesPending(curfew: nat, rounds: seq<Round>, r: Result, a: Account, i: nat, box: nat, named: nat, max: nat,
          due: nat, times: set<nat>)
    requires Goes(curfew, rounds, r, a) && a.handled > 0 && (r.outcome == Resumed ==> AtWork(r.table))
    requires i < |a.begun.procs| && (Alive(a.begun.procs[i]) ==> Pending(a.begun.procs[i], box, named, max, due, times))
    ensures StillPending(a.begun.procs[i].pid, i, r, box, named, max, due, times + a.times)
  {
    var k, p := a.woken, a.begun.procs[i];
    GoesParts(curfew, rounds, r, a);
    hide Goes, Fate, Fates, Pending, TableOk, AtWork;
    FateAt(a.begun, k, a.went, a.times, i);
    if Alive(k.procs[i]) { PendingOn(k, p, k.procs[i], a.went, box, named, max, due, times, a.times); }
    PidsOf(k);
    CurrentIn(k, {});
    if r.outcome == Resumed { Works(r.table); }
    if r.outcome == Resumed && k.current == i { PendingGot(k.procs[i], r.table.procs[i], r.receipt, box, named, max, due, times + a.times); }
  }

  lemma FateAt(k: Table, k': Table, log: seq<Note>, times: set<nat>, i: nat)
    requires Fates(k, k', log, times) && i < |k.procs|
    ensures |k'.procs| == |k.procs| && Fate(k', k.procs[i], k'.procs[i], log, times)
    ensures k'.procs[i].pid == k.procs[i].pid
    ensures Alive(k'.procs[i]) ==> Alive(k.procs[i])
  {
  }

  lemma Works(k: Table)
    requires AtWork(k)
    ensures k.current < |k.procs| && k.procs[k.current].state == Runnable && k.procs[k.current].cont == Running
  {
  }

  lemma PendingGot(p: Proc, q: Proc, r: Option<Receipt>, box: nat, named: nat, max: nat, due: nat, times: set<nat>)
    requires Alive(p) ==> Pending(p, box, named, max, due, times)
    requires p.cont.Receiving? ==> Got(p, q, p.cont.box, p.cont.named, r)
    requires p.cont.Receiving? ==> q.state == Runnable
    requires p.cont == Running ==> q == p && r == None && q.state == Runnable
    ensures p.cont.Receiving? && r.Some? && r.value.pid == p.pid && EndsWait(r.value, box, named, max, due, times)
  {
  }

  /** What a call does itself is to others but one of the fates of a process. */
  lemma DoesOthers(k: Table, c: Call, r: Result, a: Account, i: nat)
    requires TableOk(k, {}, {}) && AtWork(k) && Does(k, c, r, a) && i < |k.procs| && i != k.current && Alive(k.procs[i])
    ensures Fate(a.begun, k.procs[i], a.begun.procs[i], a.did, {})
  {
    TableBoxes(k, {}, {});
    SameFate(a.begun, k.procs[i]);
    hide TableOk, Alive, AtWork, Fate, Went, OthersWent, OnlyCurrent, Fresh, Got, Waits, KilledBy, NoRumours,
         BoxesOk, InUseAs;
    match c {
      case SysSend(dst, box, contents) => WentFate(k, a.begun, a.did, i);
      case SysRecv(box, max, now) => OthersAre(k, a.begun, i);
      case SysRpc(dst, contents) => OthersAre(k, a.begun, i);
      case SysExit(status) => WentFate(k, a.begun, a.did, i);
      case SysKill(killer, pid, status) => KillFate(k, killer, pid, status, r, a, i);
      case SysYield =>
      case SysCreate(owner, uid) => FreshIs(k, a.begun, owner, uid, i);
      case Shutdown(now) =>
    }
  }

  lemma WentFate(k: Table, k': Table, log: seq<Note>, i: nat)
    requires Went(k, k', log, {}) && i < |k.procs|
    ensures |k'.procs| == |k.procs| && Fate(k', k.procs[i], k'.procs[i], log, {})
  {
  }

  lemma OthersAre(k: Table, k': Table, i: nat)
    requires i < |k.procs| && i != k.current
    ensures forall log :: OthersWent(k, k', log) ==> |k'.procs| == |k.procs| && Fate(k', k.procs[i], k'.procs[i], log, {})
    ensures OnlyCurrent(k, k') ==> |k'.procs| == |k.procs| && k'.procs[i] == k.procs[i]
  {
    hide Fate;
  }

  lemma FreshIs(k: Table, k': Table, owner: nat, uid: nat, i: nat)
    requires i < |k.procs| && Alive(k.procs[i])
    ensures Fresh(k, k', owner, uid) ==> |k'.procs| == |k.procs| && k'.procs[i] == k.procs[i]
  {
  }

  lemma KillFate(k: Table, killer: nat, pid: nat, status: int, r: Result, a: Account, i: nat)
    requires k.current < |k.procs| && Does(k, SysKill(killer, pid, status), r, a) && i < |k.procs| && BoxesOk(k)
    ensures Fate(a.begun, k.procs[i], a.begun.procs[i], a.did, {})
  {
    SameFate(a.begun, k.procs[i]);
    hide Fate, Went, BoxesOk;
    if exists s: nat :: InUseAs(k, killer, s) {
      var s: nat :| InUseAs(k, killer, s) && Kills(k, s, pid, status, a.did, a.begun);
      WentFate(k, a.begun, a.did, i);
    }
  }

  /** One more step of a wait */
  lemma StepPending(k: Table, curfew: nat, input: Input, r: Result, a: Account, i: nat, box: nat, named: nat,
          max: nat, due: nat, times: set<nat>)
    requires TableOk(k, {}, {}) && AtWork(k) && ResultOk(k, r) && Accounted(k, curfew, input, r, a)
    requires i < |k.procs| && Pending(k.procs[i], box, named, max, due, times)
    ensures StillPending(k.procs[i].pid, i, r, box, named, max, due, times + a.times)
  {
    var p, b := k.procs[i], a.begun.procs[i];
    DoesOthers(k, input.call, r, a, i);
    SameFateParts(a.begun, p, b, a.did);
    var never: set<nat> := {};
    assert times + never == times;
    if Alive(b) { PendingOn(a.begun, p, b, a.did, box, named, max, due, times, never); }
    if a.handled == 0 {
      AtOnceOwn(k, curfew, input, r, a, i);
    } else {
      hide TableOk, AtWork, Pending, Does, Goes;
      GoesPending(curfew, input.rounds, r, a, i, box, named, max, due, times);
    }
  }

  lemma SameFateParts(k': Table, p: Proc, q: Proc, log: seq<Note>)
    requires Fate(k', p, q, log, {})
    ensures q.pid == p.pid
  {
  }

  /** A call that does not give up the CPU gives nobody but its caller anything. */
  lemma AtOnceOwn(k: Table, curfew: nat, input: Input, r: Result, a: Account, i: nat)
    requires TableOk(k, {}, {}) && AtWork(k) && Accounted(k, curfew, input, r, a) && a.handled == 0
    requires i < |k.procs| && i != k.current && Alive(k.procs[i])
    ensures r.table == a.begun && a.times == {} && (r.receipt.Some? ==> r.receipt.value.pid != k.procs[i].pid)
  {
    PidsOf(k);
    hide TableOk, Went, Kills, Fresh;
  }

  function TimesOf(accounts: seq<Account>): set<nat> {
    if accounts == [] then {} else accounts[0].times + TimesOf(accounts[1..])
  }

  /** Whoever got something runs now. */
  lemma ReceiptCurrent(k: Table, curfew: nat, input: Input, r: Result, a: Account)
    requires TableOk(k, {}, {}) && AtWork(k) && ResultOk(k, r) && Accounted(k, curfew, input, r, a) && r.receipt.Some?
    ensures AtWork(r.table) && r.table.procs[r.table.current].pid == r.receipt.value.pid
  {
    hide TableOk, Went, Kills, Fresh, Yielded, Waits, OthersWent;
  }

  /** A pid that was used does not come back. */
  lemma StepGone(k: Table, k': Table, log: seq<Note>, got: seq<Receipt>, pid: nat)
    requires InOrder(k, k', log, got) && Gone(k, pid) && pid < k.nextPid
    ensures Gone(k', pid) && pid < k'.nextPid
  {
    forall i | 0 <= i < |k'.procs| && Alive(k'.procs[i]) ensures k'.procs[i].pid != pid {
      assert Squared(k.nextPid, k.procs[i], k'.procs[i], log, got);
    }
  }

  lemma StepDead(k: Table, k': Table, log: seq<Note>, got: seq<Receipt>, i: nat)
    requires InOrder(k, k', log, got) && Pids(k) && i < |k.procs| && Alive(k.procs[i]) && !Alive(k'.procs[i])
    ensures Gone(k', k.procs[i].pid) && k.procs[i].pid < k'.nextPid
  {
    forall j | 0 <= j < |k'.procs| && Alive(k'.procs[j]) ensures k'.procs[j].pid != k.procs[i].pid {
      assert Squared(k.nextPid, k.procs[j], k'.procs[j], log, got);
    }
  }

  lemma {:induction false} NoReturn(k: Table, curfew: nat, inputs: seq<Input>, accounts: seq<Account>, pid: nat, j: nat)
    requires TableOk(k, {}, {}) && AtWork(k) && k.nextPid > 0 && forall l :: 0 <= l < |inputs| ==> InputOk(inputs[l])
    requires Recorded(k, curfew, inputs, Trace(k, curfew, inputs), accounts)
    requires Gone(k, pid) && pid < k.nextPid && j < |Trace(k, curfew, inputs)|
    ensures var r := Trace(k, curfew, inputs)[j]; r.receipt.Some? ==> r.receipt.value.pid != pid
    decreases |inputs|
  {
    hide TableOk, After, Accounted, InOrder, LogOf, ReceiptsOf, Last, Recorded, Trace, Gone;
    var rest := RunUnfolds(k, curfew, inputs, accounts);
    var r, a := After(k, curfew, inputs[0]), accounts[0];
    StepInOrder(k, curfew, inputs[0], r, a);
    StepGone(k, r.table, a.did + a.went, Receipts(r.receipt), pid);
    if j > 0 {
      NoReturn(r.table, CurfewAfter(curfew, inputs[0]), inputs[1..], accounts[1..], pid, j - 1);
    } else if r.receipt.Some? {
      ReceiptCurrent(k, curfew, inputs[0], r, a);
      GoneNot(r.table, pid);
    }
  }

  lemma GoneNot(k: Table, pid: nat)
    requires AtWork(k) && Gone(k, pid)
    ensures k.procs[k.current].pid != pid
  {
  }

  /** Result j is the first one in which this process gets something. */
  ghost predicate FirstFor(results: seq<Result>, pid: nat, j: nat) {
    && j < |results| && results[j].receipt.Some? && results[j].receipt.value.pid == pid
    && forall l :: 0 <= l < j ==> results[l].receipt.Some? ==> results[l].receipt.value.pid != pid
  }

  lemma FirstForRest(r: Result, rest: seq<Result>, pid: nat, j: nat)
    requires FirstFor([r] + rest, pid, j) && j > 0
    ensures FirstFor(rest, pid, j - 1) && (r.receipt.Some? ==> r.receipt.value.pid != pid)
  {
    var all := [r] + rest;
    assert all[0] == r && all[j] == rest[j - 1];
    forall l | 0 <= l < j - 1 && rest[l].receipt.Some? ensures rest[l].receipt.value.pid != pid {
      assert all[l + 1] == rest[l];
    }
  }

  lemma EndsWaitMore(r: Receipt, box: nat, named: nat, max: nat, due: nat, s: set<nat>, t: set<nat>)
    requires EndsWait(r, box, named, max, due, s) && s <= t
    ensures EndsWait(r, box, named, max, due, t)
  {
  }

  /** The first thing a process gets after a wait began ends the wait as it should. */
  lemma {:induction false} WaitEnds(k: Table, curfew: nat, inputs: seq<Input>, accounts: seq<Account>, i: nat, j: nat,
                                    box: nat, named: nat, max: nat, due: nat, times: set<nat>)
    requires TableOk(k, {}, {}) && AtWork(k) && k.nextPid > 0 && forall l :: 0 <= l < |inputs| ==> InputOk(inputs[l])
    requires Recorded(k, curfew, inputs, Trace(k, curfew, inputs), accounts)
    requires i < |k.procs| && Pending(k.procs[i], box, named, max, due, times)
    requires FirstFor(Trace(k, curfew, inputs), k.procs[i].pid, j)
    ensures j < |accounts|
    ensures EndsWait(Trace(k, curfew, inputs)[j].receipt.value, box, named, max, due, times + TimesOf(accounts[..j + 1]))
    decreases |inputs|, 1
  {
    hide TableOk, After, Accounted, InOrder, LogOf, ReceiptsOf, Last, Recorded, Trace, Gone, EndsWait, StillPending;
    var rest := RunUnfolds(k, curfew, inputs, accounts);
    var r, a := After(k, curfew, inputs[0]), accounts[0];
    StepPending(k, curfew, inputs[0], r, a, i, box, named, max, due, times);
    hide Pending, FirstFor;
    WaitGoesOn(k, curfew, inputs, accounts, i, j, box, named, max, due, times + a.times);
    assert accounts[..j + 1][1..] == accounts[1..][..j];
    EndsWaitMore(Trace(k, curfew, inputs)[j].receipt.value, box, named, max, due, times + a.times + TimesOf(accounts[1..][..j]),
                 times + TimesOf(accounts[..j + 1]));
  }

  lemma {:induction false} WaitGoesOn(k: Table, curfew: nat, inputs: seq<Input>, accounts: seq<Account>, i: nat, j: nat,
                                      box: nat, named: nat, max: nat, due: nat, times: set<nat>)
    requires TableOk(k, {}, {}) && AtWork(k) && k.nextPid > 0 && forall l :: 0 <= l < |inputs| ==> InputOk(inputs[l])
    requires Recorded(k, curfew, inputs, Trace(k, curfew, inputs), accounts)
    requires inputs != [] && i < |k.procs| && Alive(k.procs[i])
    requires StillPending(k.procs[i].pid, i, After(k, curfew, inputs[0]), box, named, max, due, times)
    requires FirstFor(Trace(k, curfew, inputs), k.procs[i].pid, j)
    ensures j < |accounts|
    ensures EndsWait(Trace(k, curfew, inputs)[j].receipt.value, box, named, max, due, times + TimesOf(accounts[1..][..j]))
    decreases |inputs|, 0
  {
    hide TableOk, AtWork, After, Accounted, InOrder, LogOf, ReceiptsOf, Last, Recorded, Trace, Gone, EndsWait,
         Pending, FirstFor, Alive, TimesOf;
    var rest := RunUnfolds(k, curfew, inputs, accounts);
    RecordedSize(k, curfew, inputs, Trace(k, curfew, inputs), accounts);
    var pid, r, a := k.procs[i].pid, After(k, curfew, inputs[0]), accounts[0];
    StepInOrder(k, curfew, inputs[0], r, a);
    FirstForParts(Trace(k, curfew, inputs), pid, j);
    if !Alive(r.table.procs[i]) {
      PidsOf(k);
      StepDead(k, r.table, a.did + a.went, Receipts(r.receipt), i);
      if j == 0 {
        ReceiptCurrent(k, curfew, inputs[0], r, a);
        GoneNot(r.table, pid);
      } else {
        NoReturn(r.table, CurfewAfter(curfew, inputs[0]), inputs[1..], accounts[1..], pid, j - 1);
      }
      assert false;
    } else if j == 0 {
      EndsWaitMore(r.receipt.value, box, named, max, due, times, times + TimesOf(accounts[1..][..j]));
    } else {
      FirstForRest(r, rest, pid, j);
      WaitEnds(r.table, CurfewAfter(curfew, inputs[0]), inputs[1..], accounts[1..], i, j - 1, box, named, max, due, times);
    }
  }

  lemma RecordedSize(k: Table, curfew: nat, inputs: seq<Input>, results: seq<Result>, accounts: seq<Account>)
    requires Recorded(k, curfew, inputs, results, accounts)
    ensures |accounts| == |results|
  {
  }

  lemma FirstForParts(results: seq<Result>, pid: nat, j: nat)
    requires FirstFor(results, pid, j)
    ensures j < |results| && results[j].receipt.Some? && results[j].receipt.value.pid == pid
  {
  }

  lemma WaitsPending(p: Proc, q: Proc, box: nat, named: nat, max: nat, now: nat)
    requires Waits(p, q, box, named, max, now)
    ensures q.pid == p.pid && Pending(q, box, named, max, now + max, {})
  {
  }

  /** A suspension within the first n calls ended at this time or later. */
  ghost predicate Reached(inputs: seq<Input>, n: nat, due: nat) {
    exists l, m :: 0 <= l < n && l < |inputs| && 0 <= m < |inputs[l].rounds| && due <= inputs[l].rounds[m].now
  }

  lemma {:induction false} TimesRead(k: Table, curfew: nat, inputs: seq<Input>, results: seq<Result>,
          accounts: seq<Account>, n: nat, x: nat)
    requires Recorded(k, curfew, inputs, results, accounts) && n <= |accounts| && x in TimesOf(accounts[..n])
    ensures Reached(inputs, n, x)
    decreases |inputs|
  {
    hide Accounted, Reached;
    var a := accounts[..n];
    assert a[0] == accounts[0] && a[1..] == accounts[1..][..n - 1];
    if x in a[0].times {
      FirstReached(k, curfew, inputs, results[0], a[0], n, x);
    } else {
      TimesRead(results[0].table, CurfewAfter(curfew, inputs[0]), inputs[1..], results[1..], accounts[1..], n - 1, x);
      LaterReached(inputs, n, x);
    }
  }

  lemma FirstReached(k: Table, curfew: nat, inputs: seq<Input>, r: Result, a: Account, n: nat, x: nat)
    requires inputs != [] && n > 0 && Accounted(k, curfew, inputs[0], r, a) && x in a.times
    ensures Reached(inputs, n, x)
  {
    hide Does, Yielded;
    var m :| 0 <= m < a.handled && m < |inputs[0].rounds| && inputs[0].rounds[m].now == x;
    assert x <= inputs[0].rounds[m].now;
  }

  lemma LaterReached(inputs: seq<Input>, n: nat, x: nat)
    requires inputs != [] && n > 0 && Reached(inputs[1..], n - 1, x)
    ensures Reached(inputs, n, x)
  {
    var l, m :| 0 <= l < n - 1 && l < |inputs[1..]| && 0 <= m < |inputs[1..][l].rounds| && x <= inputs[1..][l].rounds[m].now;
    assert x <= inputs[l + 1].rounds[m].now;
  }

  /** A receive that has to wait ends with a message for the mailbox named, or with none; with none only if it has
      a limit, and not before that is reached. */
  lemma TimedReceive(k: Table, curfew: nat, inputs: seq<Input>, j: nat)
    requires TableOk(k, {}, {}) && AtWork(k) && k.nextPid > 0 && forall l :: 0 <= l < |inputs| ==> InputOk(inputs[l])
    requires inputs != [] && inputs[0].call.SysRecv? && inputs[0].call.box in {REQUEST, EVENT}
    requires BoxesOk(k) && k.procs[k.current].boxes[inputs[0].call.box].messages == []
    requires FirstFor(Trace(k, curfew, inputs), k.procs[k.current].pid, j)
    ensures var call, r := inputs[0].call, Trace(k, curfew, inputs)[j].receipt.value;
      && r.box == call.box
      && (r.answer == None ==> call.max != 0 && Reached(inputs, j + 1, call.now + call.max))
  {
    hide TableOk, After, LogOf, ReceiptsOf, Last, Recorded, Trace, FirstFor, StillPending, Goes, Waits, Reached,
         Pending;
    var accounts := TraceRecorded(k, curfew, inputs);
    var rest := RunUnfolds(k, curfew, inputs, accounts);
    var call, r, a, c := inputs[0].call, After(k, curfew, inputs[0]), accounts[0], k.current;
    WaitsPending(k.procs[c], a.begun.procs[c], call.box, 0, call.max, call.now);
    var never: set<nat> := {};
    var due := call.now + call.max;
    GoesPending(curfew, inputs[0].rounds, r, a, c, call.box, 0, call.max, due, never);
    assert never + a.times == a.times;
    WaitGoesOn(k, curfew, inputs, accounts, c, j, call.box, 0, call.max, due, a.times);
    FirstForParts(Trace(k, curfew, inputs), k.procs[c].pid, j);
    AnswerOrTime(k, curfew, inputs, accounts, j, call.box, 0, call.max, due);
  }

  lemma AnswerOrTime(k: Table, curfew: nat, inputs: seq<Input>, accounts: seq<Account>, j: nat, box: nat, named: nat,
          max: nat, due: nat)
    requires TableOk(k, {}, {}) && AtWork(k) && k.nextPid > 0 && forall l :: 0 <= l < |inputs| ==> InputOk(inputs[l])
    requires Recorded(k, curfew, inputs, Trace(k, curfew, inputs), accounts) && j < |accounts| && box != REPLY
    requires j < |Trace(k, curfew, inputs)| && Trace(k, curfew, inputs)[j].receipt.Some?
    requires EndsWait(Trace(k, curfew, inputs)[j].receipt.value, box, named, max, due, accounts[0].times + TimesOf(accounts[1..][..j]))
    ensures var r := Trace(k, curfew, inputs)[j].receipt.value;
      r.box == box && (r.answer == None ==> max != 0 && Reached(inputs, j + 1, due))
  {
    hide TableOk, AtWork, After, Recorded, Trace;
    var r := Trace(k, curfew, inputs)[j].receipt.value;
    if r.answer == None {
      var x :| x in accounts[0].times + TimesOf(accounts[1..][..j]) && due <= x;
      assert accounts[..j + 1][0] == accounts[0] && accounts[..j + 1][1..] == accounts[1..][..j];
      TimesRead(k, curfew, inputs, Trace(k, curfew, inputs), accounts, j + 1, x);
    }
  }

  /** An RPC to a process that is alive ends with its reply, or without one if it has died. */
  lemma RpcReturns(k: Table, curfew: nat, inputs: seq<Input>, j: nat)
    requires TableOk(k, {}, {}) && AtWork(k) && k.nextPid > 0 && forall l :: 0 <= l < |inputs| ==> InputOk(inputs[l])
    requires inputs != [] && inputs[0].call.SysRpc? && inputs[0].call.dst != k.procs[k.current].pid
    requires !Gone(k, inputs[0].call.dst)
    requires FirstFor(Trace(k, curfew, inputs), k.procs[k.current].pid, j)
    ensures var dst, r := inputs[0].call.dst, Trace(k, curfew, inputs)[j];
      && r.receipt.value.box == REPLY && r.receipt.value.named == dst
      && match r.receipt.value.answer case Some(m) => m.src == dst case None => Gone(r.table, dst)
  {
    hide TableOk, After, LogOf, ReceiptsOf, Last, Recorded, Trace, FirstFor, StillPending, Goes, Waits, Gone,
         Pending, Proper;
    var accounts := TraceRecorded(k, curfew, inputs);
    var rest := RunUnfolds(k, curfew, inputs, accounts);
    var r, a, c, dst := After(k, curfew, inputs[0]), accounts[0], k.current, inputs[0].call.dst;
    WaitsPending(k.procs[c], a.begun.procs[c], REPLY, dst, 0, 0);
    var never: set<nat> := {};
    GoesPending(curfew, inputs[0].rounds, r, a, c, REPLY, dst, 0, 0, never);
    assert never + a.times == a.times;
    WaitGoesOn(k, curfew, inputs, accounts, c, j, REPLY, dst, 0, 0, a.times);
    FirstForParts(Trace(k, curfew, inputs), k.procs[c].pid, j);
    TraceProper(k, curfew, inputs, j);
    AliveIs(Trace(k, curfew, inputs)[j].table, dst);
    ProperParts(Trace(k, curfew, inputs)[j]);
  }

  lemma ProperParts(r: Result)
    requires r.receipt.Some? && Proper(r.table, r.receipt.value) && r.receipt.value.box == REPLY
    ensures match r.receipt.value.answer
      case Some(m) => m.src == r.receipt.value.named
      case None => r.receipt.value.named !in AlivePids(r.table.procs)
  {
  }

  lemma {:induction false} TraceProper(k: Table, curfew: nat, inputs: seq<Input>, j: nat)
    requires TableOk(k, {}, {}) && AtWork(k) && k.nextPid > 0 && forall l :: 0 <= l < |inputs| ==> InputOk(inputs[l])
    requires j < |Trace(k, curfew, inputs)|
    ensures var r := Trace(k, curfew, inputs)[j]; r.receipt.Some? ==> Proper(r.table, r.receipt.value)
    decreases |inputs|
  {
    hide TableOk, AtWork, After, Proper;
    var r := After(k, curfew, inputs[0]);
    if j > 0 { TraceProper(r.table, CurfewAfter(curfew, inputs[0]), inputs[1..], j - 1); }
  }

  // ---- in turn ----

  /** What a call does itself moves nobody back on the run queue; nor does it move anybody on, unless it creates a
      process, which runs at once. */
  lemma DoesLine(k: Table, c: Call, r: Result, a: Account)
    requires k.current < |k.procs| && k.nextPid > 0 && Does(k, c, r, a)
    ensures if c.SysCreate? && r.value != 0 then a.begun.runq == k.runq + [k.current] else Lined(k, a.begun) && a.begun.current == k.current
  {
    LinedUp(k, k);
    hide Lined, Fates, Waits, Got;
    match c {
      case SysRecv(box, max, now) => LinedUp(k, a.begun);
      case SysRpc(dst, contents) => LinedUp(k, a.begun);
      case Shutdown(now) => LinedUp(k, a.begun);
      case SysKill(killer, pid, status) =>
        if exists s: nat :: InUseAs(k, killer, s) {
          var s: nat :| InUseAs(k, killer, s) && Kills(k, s, pid, status, a.did, a.begun);
        }
      case _ =>
    }
  }

  lemma StepPasses(k: Table, curfew: nat, i: Input, r: Result, a: Account)
    requires k.nextPid > 0 && Accounted(k, curfew, i, r, a) && !(i.call.SysCreate? && r.value != 0)
    ensures Passed(k, r.table)
  {
    DoesLine(k, i.call, r, a);
    hide Does, Lined, Passed;
    if a.handled == 0 {
      LinedPasses(k, a.begun);
    } else {
      FatesDead(a.begun, a.woken, a.went, a.times);
      PassedLater(k, a.begun, a.woken);
      if r.outcome == Resumed { PassedSame(k, a.woken, r.table, r.receipt); }
    }
  }

  lemma PassedSame(k: Table, k1: Table, k2: Table, r: Option<Receipt>)
    requires Passed(k, k1) && WentOnWith(k1, k2, r)
    ensures Passed(k, k2)
  {
    var c: nat :| Advanced(k, k1, c) && (k1.current != k.current && k.runq != [] ==> c >= 1) && LeftFor(k, k1, c);
    assert Advanced(k, k2, c);
    forall j | 0 <= j < c ensures k.runq[j] == k2.current || Dead(k2, k.runq[j]) {
    }
    assert LeftFor(k, k2, c);
  }

  /** The caller gives up the CPU. */
  ghost predicate GivesUp(k: Table, c: Call)
    requires AtWork(k) && BoxesOk(k)
  {
    var p := k.procs[k.current];
    match c
    case SysRecv(box, _, _) => box in {REQUEST, EVENT} && p.boxes[box].messages == []
    case SysRpc(dst, _) => dst != p.pid && !Gone(k, dst)
    case _ => c.SysExit? || c.SysYield?
  }

  /** A turn is over: the caller has given up the CPU, or another process than a new one has got it. */
  ghost predicate TurnOver(k: Table, i: Input, r: Result)
    requires AtWork(k) && BoxesOk(k)
  {
    r.outcome == Resumed && (GivesUp(k, i.call) || (r.table.current != k.current && !(i.call.SysCreate? && r.value != 0)))
  }

  ghost function Turns(k: Table, curfew: nat, inputs: seq<Input>): nat
    requires TableOk(k, {}, {}) && AtWork(k) && k.nextPid > 0 && forall l :: 0 <= l < |inputs| ==> InputOk(inputs[l])
    decreases |inputs|
  {
    TableBoxes(k, {}, {});
    if inputs == [] then 0 else
      var r := After(k, curfew, inputs[0]);
      (if TurnOver(k, inputs[0], r) then 1 else 0)
      + if r.outcome == Resumed then Turns(r.table, CurfewAfter(curfew, inputs[0]), inputs[1..]) else 0
  }

  /** A process at place j of the run queue that lives gets the CPU after at most j others. */
  lemma {:induction false} TurnComes(k: Table, curfew: nat, inputs: seq<Input>, j: nat)
    requires TableOk(k, {}, {}) && AtWork(k) && k.nextPid > 0 && forall l :: 0 <= l < |inputs| ==> InputOk(inputs[l])
    requires j < |k.runq|
    requires forall r :: r in Trace(k, curfew, inputs) ==>
      k.runq[j] < |r.table.procs| && Alive(r.table.procs[k.runq[j]]) && r.table.current != k.runq[j]
    ensures Turns(k, curfew, inputs) <= j
    decreases |inputs|
  {
    hide TableOk, AtWork, After, Accounted, LogOf, ReceiptsOf, Last, Recorded, Trace, Passed, TurnOver, BoxesOk;
    TableBoxes(k, {}, {});
    var accounts := TraceRecorded(k, curfew, inputs);
    var rest := RunUnfolds(k, curfew, inputs, accounts);
    if inputs != [] {
      var r, a := After(k, curfew, inputs[0]), accounts[0];
      var results := Trace(k, curfew, inputs);
      assert results[0] == r && results[1..] == rest;
      assert r in results;
      var l := NextPlace(k, curfew, inputs[0], r, a, j);
      if r.outcome == Resumed {
        forall x | x in rest ensures x in results {
          assert x in results[1..];
        }
        TurnComes(r.table, CurfewAfter(curfew, inputs[0]), inputs[1..], l);
      }
    }
  }

  /** The place of a process on the run queue after a step */
  lemma NextPlace(k: Table, curfew: nat, i: Input, r: Result, a: Account, j: nat) returns (l: nat)
    requires AtWork(k) && BoxesOk(k) && Accounted(k, curfew, i, r, a) && k.nextPid > 0 && j < |k.runq|
    requires k.runq[j] < |r.table.procs| && Alive(r.table.procs[k.runq[j]]) && r.table.current != k.runq[j]
    ensures l < |r.table.runq| && r.table.runq[l] == k.runq[j]
    ensures if TurnOver(k, i, r) then l < j else l <= j
  {
    hide Accounted, Passed, BoxesOk;
    if i.call.SysCreate? && r.value != 0 {
      CreatesLine(k, curfew, i, r, a);
      l := j;
    } else {
      StepPasses(k, curfew, i, r, a);
      if TurnOver(k, i, r) { TurnPassesOn(k, curfew, i, r, a); }
      l := PlaceAfter(k, r.table, j);
    }
  }

  lemma PlaceAfter(k: Table, k': Table, j: nat) returns (l: nat)
    requires Passed(k, k') && j < |k.runq| && k.runq[j] < |k'.procs| && Alive(k'.procs[k.runq[j]])
    requires k'.current != k.runq[j]
    ensures l < |k'.runq| && k'.runq[l] == k.runq[j] && l <= j && (k'.current != k.current ==> l < j)
  {
    var c: nat :| Advanced(k, k', c) && (k'.current != k.current && k.runq != [] ==> c >= 1) && LeftFor(k, k', c);
    l := j - c;
    assert k.runq[c..][l] == k.runq[j];
  }

  /** Whoever gives up the CPU keeps it only if nobody else can run. */
  lemma TurnPassesOn(k: Table, curfew: nat, i: Input, r: Result, a: Account)
    requires AtWork(k) && BoxesOk(k) && Accounted(k, curfew, i, r, a) && k.nextPid > 0 && TurnOver(k, i, r)
    ensures r.table.current == k.current ==> r.table.runq == []
  {
    hide TableOk, Went, Kills, Fresh, Got, Waits, Fates, Passed, Timely;
  }

  lemma CreatesLine(k: Table, curfew: nat, i: Input, r: Result, a: Account)
    requires Accounted(k, curfew, i, r, a) && k.nextPid > 0 && i.call.SysCreate? && r.value != 0
    ensures r.table.runq == k.runq + [k.current]
  {
    hide Went, Yielded, Kills, OthersWent, OnlyCurrent, Got, Waits, TableOk, During;
  }

  // ---- shutting down ----

  /** During a shutdown nobody gets the CPU any more, and no suspension is waited for past the curfew. */
  lemma NobodyResumes(k: Table, curfew: nat, i: Input, r: Result, a: Account)
    requires AtWork(k) && BoxesOk(k) && ResultOk(k, r) && Accounted(k, curfew, i, r, a) && k.shutting
    requires GivesUp(k, i.call)
    ensures r.outcome != Resumed
    ensures r.outcome == Idle && curfew != 0 ==> forall m :: 0 <= m < |i.rounds| ==> i.rounds[m].now <= curfew
  {
    StillShutting(k, i.call, r, a);
    GoesParts(curfew, i.rounds, r, a);
    CurrentIn(a.woken, {});
    AllEnded(a.begun, a.woken, r.outcome, a.went, a.times, EventsOf(i.rounds[..a.handled]));
    hide TableOk, Does, Yielded;
    if r.outcome == Idle && curfew != 0 {
      forall m | 0 <= m < |i.rounds| ensures i.rounds[m].now <= curfew {
        assert EndsAt(i.rounds, a.handled, i.rounds[m].now);
      }
    }
  }

  lemma AllEnded(k: Table, k': Table, o: Outcome, log: seq<Note>, times: set<nat>, events: seq<Event>)
    requires Yielded(k, k', o, log, times, events) && k.shutting
    ensures o == Resumed ==> forall i :: 0 <= i < |k'.procs| ==> !Alive(k'.procs[i])
  {
    hide Told, Lawful, Fate, AllHonest, Served, Passed;
    if o == Resumed {
      var now :| now in times && Timely(k', now, |k'.procs|);
      forall i | 0 <= i < |k'.procs| ensures !Alive(k'.procs[i]) { assert !Late(k', k'.procs[i], now); }
    }
  }

  lemma StillShutting(k: Table, c: Call, r: Result, a: Account)
    requires AtWork(k) && BoxesOk(k) && k.shutting && Does(k, c, r, a) && GivesUp(k, c)
    ensures a.begun.shutting && a.handled > 0
  {
    hide Waits, Told, Lawful, Fate, Lined;
  }

  /** A shutdown: once its caller gives up the CPU, no process runs any more, and the machine stops after 3000
      milliseconds at the latest. */
  lemma ShutdownEnds(k: Table, curfew: nat, now: nat, next: Input)
    requires TableOk(k, {}, {}) && AtWork(k) && k.nextPid > 0 && BoxesOk(k) && InputOk(next)
    requires BoxesOk(k.(shutting := true)) && GivesUp(k.(shutting := true), next.call)
    ensures var results := Trace(k, curfew, [Input(Shutdown(now), next.rounds), next]);
      && |results| == 2 && results[1].outcome != Resumed
      && (results[1].outcome == Idle ==> forall m :: 0 <= m < |next.rounds| ==> next.rounds[m].now <= now + 3000)
  {
    hide TableOk, SendCall, RecvCall, RpcCall, ExitCall, KillCall, CreateCall, Yielding, Accounted, GivesUp, BoxesOk;
    var first := Input(Shutdown(now), next.rounds);
    ShutdownOk(k);
    var k' := k.(shutting := true);
    assert [first, next][1..] == [next] && [next][1..] == [];
    var a := CallAccount(k', now + 3000, next);
    var r := After(k', now + 3000, next);
    NobodyResumes(k', now + 3000, next, r, a);
    assert Trace(k', now + 3000, [next]) == [r];
  }
}
