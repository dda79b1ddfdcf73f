/** What the kernel's steps do to each process: which messages arrive in its mailboxes and in which order, why it
    wakes, and who ends it. */
module Ledgers {
  import opened Processes
  import opened Messaging
  import opened Killing
  import opened Scheduling

  // ---- what happens ----

  datatype Source = Caller | Hardware | Death

  /** Who ends a process: itself, the kernel at a shutdown, or a user */
  datatype Killer = Itself | Kernel | User(pid: nat, uid: nat)

  /** A message is put in a mailbox, or a process ends. */
  datatype Note =
    | Sent(pid: nat, box: nat, m: Message, from: Source)
    | Ended(pid: nat, uid: nat, owner: nat, status: int, killer: Killer)

  /** The messages put in one mailbox, in order */
  function Arrived(log: seq<Note>, pid: nat, box: nat): seq<Message> {
    if log == [] then [] else
      var rest, n := Arrived(log[..|log| - 1], pid, box), log[|log| - 1];
      if n.Sent? && n.pid == pid && n.box == box then rest + [n.m] else rest
  }

  lemma {:induction false} ArrivedTwice(a: seq<Note>, b: seq<Note>, pid: nat, box: nat)
    ensures Arrived(a + b, pid, box) == Arrived(a, pid, box) + Arrived(b, pid, box)
    decreases |b|
  {
    if b == [] {
      assert a + b == a;
    } else {
      var n := |b| - 1;
      ArrivedTwice(a, b[..n], pid, box);
      assert (a + b)[..|a + b| - 1] == a + b[..n];
    }
  }

  lemma ArrivedOne(n: Note, pid: nat, box: nat)
    ensures Arrived([n], pid, box) == if n.Sent? && n.pid == pid && n.box == box then [n.m] else []
  {
    assert [n][..0] == [];
  }

  // ---- what becomes of one process ----

  /** No process alive has this pid. */
  ghost predicate Gone(k: Table, pid: nat) {
    forall i :: 0 <= i < |k.procs| && Alive(k.procs[i]) ==> k.procs[i].pid != pid
  }

  /** What arrived is in the mailboxes, after what was there. */
  ghost predicate Grew(p: Proc, q: Proc, log: seq<Note>) {
    && |p.boxes| == NTYPES && |q.boxes| == NTYPES
    && forall t: nat :: t < NTYPES ==> q.boxes[t].messages == p.boxes[t].messages + Arrived(log, p.pid, t)
  }

  /** A process that waits does so for the same mailbox and as long as it did. */
  ghost predicate StillWaits(p: Proc, q: Proc) {
    && p.state == Waiting && q.alarm == p.alarm && q.exptime == p.exptime && |p.boxes| == NTYPES && |q.boxes| == NTYPES
    && forall t: nat :: t < NTYPES ==> q.boxes[t].waiting == p.boxes[t].waiting
  }

  /** Why a process that waited runs: a message came to a mailbox it waits for, or the server of its RPC is
      dead, or its time was up at one of these times. */
  ghost predicate Woke(k': Table, p: Proc, log: seq<Note>, times: set<nat>) {
    && |p.boxes| == NTYPES
    && ((exists t: nat :: t < NTYPES && p.boxes[t].waiting && Arrived(log, p.pid, t) != [])
        || (p.boxes[REPLY].waiting && Gone(k', p.server))
        || (p.alarm && exists now :: now in times && p.exptime <= now))
  }

  ghost predicate EndedIn(p: Proc, log: seq<Note>) {
    exists status, killer :: Ended(p.pid, p.uid, p.owner, status, killer) in log
  }

  ghost predicate Fate(k': Table, p: Proc, q: Proc, log: seq<Note>, times: set<nat>) {
    && q.pid == p.pid && q.uid == p.uid && q.owner == p.owner && q.interruptable == p.interruptable
    && (q.state != Free ==> p.state != Free)
    && (Alive(q) ==> Alive(p) && q.server == p.server && q.cont == p.cont && Grew(p, q, log))
    && (q.state == Waiting ==> StillWaits(p, q))
    && (p.state == Waiting && q.state == Runnable ==> Woke(k', p, log, times))
    && (Alive(p) && !Alive(q) ==> EndedIn(p, log))
  }

  // ---- what a step may do ----

  /** Messages go to processes there are or have been. Users end processes of their own only, but for the
      superuser; the kernel ends processes at a shutdown. */
  predicate Lawful(k: Table, n: Note) {
    match n
    case Sent(pid, _, _, _) => pid < k.nextPid
    case Ended(_, uid, _, _, Itself) => true
    case Ended(_, uid, _, _, Kernel) => k.shutting
    case Ended(_, uid, _, _, User(_, killer)) => killer == 0 || killer == uid
  }

  /** While others run, no process sends anything or ends itself; who ends others is there, with the uid noted. */
  ghost predicate Honest(k: Table, n: Note) {
    match n
    case Sent(_, _, _, from) => from != Caller
    case Ended(_, _, _, _, Itself) => false
    case Ended(_, _, _, _, Kernel) => true
    case Ended(_, _, _, _, User(pid, uid)) =>
      exists s :: 0 <= s < |k.procs| && k.procs[s].state != Free && k.procs[s].pid == pid && k.procs[s].uid == uid
  }

  /** What the owner of a process gets when that ends */
  function DeathNote(n: Note): Note
    requires n.Ended?
  {
    Sent(n.owner, EVENT, Message(n.pid, n.uid, [1, n.pid, n.status]), Death)
  }

  /** An owner that is alive has been told at once. */
  ghost predicate Told(k': Table, log: seq<Note>) {
    forall j :: 0 <= j < |log| && log[j].Ended? && !Gone(k', log[j].owner) ==> j + 1 < |log| && log[j + 1] == DeathNote(log[j])
  }

  /** Nobody is told of a death but right after it. */
  ghost predicate NoRumours(log: seq<Note>) {
    forall j :: 0 <= j < |log| ==> Founded(log, j)
  }

  predicate Founded(log: seq<Note>, j: nat)
    requires j < |log|
  {
    log[j].Sent? && log[j].from == Death ==> j > 0 && log[j - 1].Ended? && log[j] == DeathNote(log[j - 1])
  }

  lemma NoRumoursOn(a: seq<Note>, b: seq<Note>)
    requires NoRumours(a) && NoRumours(b)
    ensures NoRumours(a + b)
  {
    forall j | 0 <= j < |a + b| ensures Founded(a + b, j) {
      if j < |a| { assert Founded(a, j); } else { assert Founded(b, j - |a|); }
    }
  }

  /** The first c on the run queue have left it, and others have joined it at its end. */
  ghost predicate Advanced(k: Table, k': Table, c: nat) {
    c <= |k.runq| && k.runq[c..] <= k'.runq
  }

  /** Who has left it is dead. */
  ghost predicate Lined(k: Table, k': Table) {
    exists c: nat :: Advanced(k, k', c) && forall j :: 0 <= j < c ==> Dead(k', k.runq[j])
  }

  predicate Dead(k: Table, i: nat) {
    i < |k.procs| ==> !Alive(k.procs[i])
  }

  /** The processes go on from k to k' as is noted, while the clock was read at the given times. */
  ghost predicate Fates(k: Table, k': Table, log: seq<Note>, times: set<nat>) {
    && |k'.procs| == |k.procs| && k'.shutting == k.shutting && k'.nextPid == k.nextPid
    && (forall i :: 0 <= i < |k.procs| ==> Fate(k', k.procs[i], k'.procs[i], log, times))
    && (forall n :: n in log ==> Lawful(k, n)) && Told(k', log)
  }

  /** So do the tables, without a switch. */
  ghost predicate Went(k: Table, k': Table, log: seq<Note>, times: set<nat>) {
    Fates(k, k', log, times) && Lined(k, k')
  }

  lemma FateOn(k1: Table, k2: Table, p: Proc, m: Proc, q: Proc, a: seq<Note>, b: seq<Note>, s: set<nat>, t: set<nat>)
    requires Fate(k1, p, m, a, s) && Fate(k2, m, q, b, t)
    requires forall x :: Gone(k1, x) ==> Gone(k2, x)
    ensures Fate(k2, p, q, a + b, s + t)
  {
    forall box: nat ensures Arrived(a + b, p.pid, box) == Arrived(a, p.pid, box) + Arrived(b, p.pid, box) {
      ArrivedTwice(a, b, p.pid, box);
    }
    hide Arrived, Gone;
  }

  lemma GoneOn(k: Table, k': Table, log: seq<Note>, times: set<nat>, pid: nat)
    requires Fates(k, k', log, times) && Gone(k, pid)
    ensures Gone(k', pid)
  {
    forall i | 0 <= i < |k'.procs| && Alive(k'.procs[i]) ensures k'.procs[i].pid != pid {
      assert Fate(k', k.procs[i], k'.procs[i], log, times);
    }
  }

  lemma LinedOn(k: Table, k1: Table, k2: Table)
    requires Lined(k, k1) && Lined(k1, k2) && forall i: nat :: Dead(k1, i) ==> Dead(k2, i)
    ensures Lined(k, k2)
  {
    var c: nat :| Advanced(k, k1, c) && forall j :: 0 <= j < c ==> Dead(k1, k.runq[j]);
    var d: nat :| Advanced(k1, k2, d) && forall j :: 0 <= j < d ==> Dead(k2, k1.runq[j]);
    var e := AdvancedOn(k, k1, k2, c, d);
    hide Dead, Advanced;
    forall j | 0 <= j < e ensures Dead(k2, k.runq[j]) {
      if j >= c { assert k.runq[j] == k1.runq[j - c]; }
    }
  }

  /** Two advances are one; what leaves in the second has been behind what left in the first. */
  lemma AdvancedOn(k: Table, k1: Table, k2: Table, c: nat, d: nat) returns (e: nat)
    requires Advanced(k, k1, c) && Advanced(k1, k2, d)
    ensures c <= e <= c + d && e <= |k.runq| && (e == c + d || e == |k.runq|) && Advanced(k, k2, e)
    ensures forall j :: c <= j < e ==> j - c < d && j - c < |k1.runq| && k.runq[j] == k1.runq[j - c]
  {
    e := if c + d <= |k.runq| then c + d else |k.runq|;
    forall j | c <= j < |k.runq| ensures j - c < |k1.runq| && k.runq[j] == k1.runq[j - c] {
      assert k.runq[j] == k.runq[c..][j - c];
    }
    forall j | e <= j < |k.runq| ensures j - e < |k2.runq| && k.runq[j] == k2.runq[j - e] {
      assert k1.runq[j - c] == k1.runq[d..][j - e];
    }
    assert k.runq[e..] <= k2.runq;
  }

  lemma LinedUp(k: Table, k': Table)
    requires k.runq <= k'.runq
    ensures Lined(k, k')
  {
    assert k.runq[0..] == k.runq;
    assert Advanced(k, k', 0);
  }

  lemma DeadOn(k: Table, k': Table, log: seq<Note>, times: set<nat>)
    requires |k'.procs| == |k.procs|
    requires forall i :: 0 <= i < |k.procs| ==> Fate(k', k.procs[i], k'.procs[i], log, times)
    ensures forall i: nat :: Dead(k, i) ==> Dead(k', i)
  {
  }

  lemma FatesOn(k: Table, k1: Table, k2: Table, a: seq<Note>, b: seq<Note>, s: set<nat>, t: set<nat>)
    requires Fates(k, k1, a, s) && Fates(k1, k2, b, t)
    ensures Fates(k, k2, a + b, s + t)
  {
    forall x | Gone(k1, x) ensures Gone(k2, x) { GoneOn(k1, k2, b, t, x); }
    forall i | 0 <= i < |k.procs| ensures Fate(k2, k.procs[i], k2.procs[i], a + b, s + t) {
      FateOn(k1, k2, k.procs[i], k1.procs[i], k2.procs[i], a, b, s, t);
    }
    hide Fate, Gone;
    forall n | n in a + b ensures Lawful(k, n) {
      if n in b { assert Lawful(k1, n); }
    }
    forall j | 0 <= j < |a + b| && (a + b)[j].Ended? && !Gone(k2, (a + b)[j].owner)
      ensures j + 1 < |a + b| && (a + b)[j + 1] == DeathNote((a + b)[j])
    {
      if j < |a| { assert a[j] == (a + b)[j]; } else { assert b[j - |a|] == (a + b)[j]; }
    }
  }

  lemma WentOn(k: Table, k1: Table, k2: Table, a: seq<Note>, b: seq<Note>, s: set<nat>, t: set<nat>)
    requires Went(k, k1, a, s) && Went(k1, k2, b, t)
    ensures Went(k, k2, a + b, s + t)
  {
    FatesOn(k, k1, k2, a, b, s, t);
    DeadOn(k1, k2, b, t);
    hide Fates;
    LinedOn(k, k1, k2);
  }

  lemma WentTwice(k: Table, k1: Table, k2: Table, a: seq<Note>, b: seq<Note>)
    requires Went(k, k1, a, {}) && Went(k1, k2, b, {})
    ensures Went(k, k2, a + b, {})
  {
    var none: set<nat> := {};
    WentOn(k, k1, k2, a, b, none, none);
    assert none + none == none;
  }

  lemma WentNowhere(k: Table)
    requires BoxesOk(k)
    ensures Went(k, k, [], {})
  {
    LinedUp(k, k);
  }

  lemma WentPids(k: Table, k': Table, log: seq<Note>, times: set<nat>)
    requires Went(k, k', log, times) && Pids(k)
    ensures Pids(k')
  {
    forall i | 0 <= i < |k.procs| ensures k'.procs[i].pid == k.procs[i].pid && (k'.procs[i].state != Free ==> k.procs[i].state != Free) {
      assert Fate(k', k.procs[i], k'.procs[i], log, times);
    }
  }

  // ---- sending, ending, and the scan ----

  function SendLog(k: Table, m: Message, dst: nat, t: nat, from: Source): seq<Note>
    requires t < NTYPES && BoxesOk(k)
  {
    if Send(k, m, dst, t).1 then [Sent(dst, t, m, from)] else []
  }

  lemma SendWent(k: Table, m: Message, dst: nat, t: nat, from: Source)
    requires t < NTYPES && BoxesOk(k) && Pids(k)
    ensures Went(k, Send(k, m, dst, t).0, SendLog(k, m, dst, t, from), {})
  {
    FindIs(k, dst);
    var k', log := Send(k, m, dst, t).0, SendLog(k, m, dst, t, from);
    if log == [] {
      WentNowhere(k);
    } else {
      SentFate(k, m, dst, t, from);
      forall i | 0 <= i < |k.procs| && i != Find(k, dst) ensures Fate(k', k.procs[i], k'.procs[i], log, {}) {
        OthersFate(k, k', m, dst, t, from, i);
      }
      hide Fate, Gone, Send;
      SendParts(k, m, dst, t);
      LinedUp(k, k');
    }
  }

  lemma SendParts(k: Table, m: Message, dst: nat, t: nat)
    requires t < NTYPES && BoxesOk(k)
    ensures var k' := Send(k, m, dst, t).0; k'.shutting == k.shutting && k'.nextPid == k.nextPid && k.runq <= k'.runq
  {
  }

  lemma OthersFate(k: Table, k': Table, m: Message, dst: nat, t: nat, from: Source, i: nat)
    requires t < NTYPES && BoxesOk(k) && Pids(k) && Send(k, m, dst, t) == (k', true) && i < |k.procs|
    requires i != Find(k, dst)
    ensures Fate(k', k.procs[i], k'.procs[i], [Sent(dst, t, m, from)], {})
  {
    FindIs(k, dst);
    assert k'.procs[i] == k.procs[i];
    hide Send, Gone;
    forall box: nat ensures Alive(k.procs[i]) ==> Arrived([Sent(dst, t, m, from)], k.procs[i].pid, box) == [] {
      ArrivedOne(Sent(dst, t, m, from), k.procs[i].pid, box);
    }
  }

  lemma SentFate(k: Table, m: Message, dst: nat, t: nat, from: Source)
    requires t < NTYPES && BoxesOk(k) && Send(k, m, dst, t).1
    ensures var d, k' := Find(k, dst), Send(k, m, dst, t).0;
      d >= 0 && Fate(k', k.procs[d], k'.procs[d], [Sent(dst, t, m, from)], {})
  {
    FindFromIs(k.procs, dst, 0);
    DeliveredFate(Send(k, m, dst, t).0, k.procs[Find(k, dst)], m, t, from);
  }

  lemma DeliveredFate(k': Table, p: Proc, m: Message, t: nat, from: Source)
    requires t < NTYPES && |p.boxes| == NTYPES && Accepts(p, m.src, t) && p.state != Free
    ensures var q := if p.boxes[t].waiting then Woken(p, Delivered(p, t, m))
                     else p.(boxes := p.boxes[t := p.boxes[t].(messages := p.boxes[t].messages + [m])]);
      Fate(k', p, q, [Sent(p.pid, t, m, from)], {})
  {
    hide Gone;
    forall box: nat ensures Arrived([Sent(p.pid, t, m, from)], p.pid, box) == if t == box then [m] else [] {
      ArrivedOne(Sent(p.pid, t, m, from), p.pid, box);
    }
    hide Arrived;
  }

  /** One process wakes; it has a reason to. */
  lemma WakeUpWent(k: Table, i: nat, times: set<nat>)
    requires BoxesOk(k) && i < |k.procs| && k.procs[i].state == Waiting
    requires Woke(k, k.procs[i], [], times)
    ensures Went(k, WakeUp(k, i), [], times)
  {
    var k' := WakeUp(k, i);
    GoneStill(k, k');
    LinedUp(k, k');
    hide Gone, Lined;
    forall j | 0 <= j < |k.procs| ensures Fate(k', k.procs[j], k'.procs[j], [], times) {
    }
  }

  lemma GoneStill(k: Table, k': Table)
    requires |k'.procs| == |k.procs|
    requires forall i :: 0 <= i < |k.procs| ==> k'.procs[i].pid == k.procs[i].pid && (Alive(k'.procs[i]) ==> Alive(k.procs[i]))
    ensures forall x :: Gone(k, x) ==> Gone(k', x)
  {
  }

  lemma {:induction false} FailWent(k: Table, pid: nat, i: nat)
    requires BoxesOk(k) && i <= |k.procs| && Gone(k, pid)
    ensures Went(k, FailClients(k, pid, i), [], {})
    decreases |k.procs| - i
  {
    if i == |k.procs| {
      WentNowhere(k);
    } else {
      var k1 := if Stranded(k.procs[i], pid) then WakeUp(k, i) else k;
      if Stranded(k.procs[i], pid) { WakeUpWent(k, i, {}); } else { WentNowhere(k); }
      hide Went, WakeUp;
      GoneOn(k, k1, [], {}, pid);
      FailWent(k1, pid, i + 1);
      WentTwice(k, k1, FailClients(k1, pid, i + 1), [], []);
      assert [] + [] == (var none: seq<Note> := []; none);
    }
  }

  lemma ReleaseWent(k: Table, i: nat)
    requires BoxesOk(k) && i < |k.procs| && !Alive(k.procs[i]) && k.procs[i].state != Free
    ensures Went(k, Release(k, i), [], {})
  {
    LinedUp(k, Release(k, i));
    hide Lined;
  }

  function EndOf(p: Proc, status: int, killer: Killer): Note {
    Ended(p.pid, p.uid, p.owner, status, killer)
  }

  /** The end of a process: its owner, if alive, is told first of all. */
  lemma TermWent(k: Table, i: nat, status: int, killer: Killer) returns (log: seq<Note>)
    requires BoxesOk(k) && Pids(k) && i < |k.procs| && Alive(k.procs[i]) && Lawful(k, EndOf(k.procs[i], status, killer))
    ensures Went(k, Term(k, i, status), log, {})
    ensures var n := EndOf(k.procs[i], status, killer); log == [n] || log == [n, DeathNote(n)]
  {
    hide Fate, Fates, Went, Gone, FailClients;
    var p, k1, n := k.procs[i], Mark(k, i), EndOf(k.procs[i], status, killer);
    var owner := Find(k1, p.owner);
    FindIs(k1, p.owner);
    var m := Obituary(p, status);
    var sent := if owner >= 0 then SendLog(k1, m, k1.procs[owner].pid, EVENT, Death) else [];
    var k2 := if owner >= 0 then Send(k1, m, k1.procs[owner].pid, EVENT).0 else k1;
    log := [n] + sent;
    MarkFates(k, i, n);
    if owner >= 0 { SendWent(k1, m, k1.procs[owner].pid, EVENT, Death); } else { WentNowhere(k1); }
    MarkedWent(k, k1, k2, i, n, sent);
    WentParts(k1, k2, sent, {});
    GoneOn(k1, k2, sent, {}, p.pid);
    FailWent(k2, p.pid, 0);
    WentTwice(k, k2, Term(k, i, status), log, []);
    assert log + [] == log;
  }

  lemma MarkFates(k: Table, i: nat, n: Note)
    requires BoxesOk(k) && Pids(k) && i < |k.procs| && Alive(k.procs[i]) && n.Ended?
    requires n == EndOf(k.procs[i], n.status, n.killer)
    ensures var k1 := Mark(k, i);
      && BoxesOk(k1) && Pids(k1) && Gone(k1, k.procs[i].pid)
      && forall j :: 0 <= j < |k.procs| ==> Fate(k1, k.procs[j], k1.procs[j], [n], {})
  {
    var k1 := Mark(k, i);
    forall j | 0 <= j < |k.procs| ensures Fate(k1, k.procs[j], k1.procs[j], [n], {}) {
      forall t: nat ensures Arrived([n], k.procs[j].pid, t) == [] { ArrivedOne(n, k.procs[j].pid, t); }
    }
  }

  /** The two first parts of an end together */
  lemma MarkedWent(k: Table, k1: Table, k2: Table, i: nat, n: Note, sent: seq<Note>)
    requires BoxesOk(k) && Pids(k) && i < |k.procs| && Alive(k.procs[i]) && n.Ended? && Lawful(k, n)
    requires n == EndOf(k.procs[i], n.status, n.killer) && k1 == Mark(k, i) && BoxesOk(k1) && Pids(k1)
    requires forall j :: 0 <= j < |k.procs| ==> Fate(k1, k.procs[j], k1.procs[j], [n], {})
    requires Went(k1, k2, sent, {})
    requires var owner := Find(k1, n.owner);
      sent == if owner >= 0 then SendLog(k1, DeathNote(n).m, k1.procs[owner].pid, EVENT, Death) else []
    ensures Went(k, k2, [n] + sent, {})
  {
    var none: set<nat> := {};
    forall x | Gone(k1, x) ensures Gone(k2, x) { GoneOn(k1, k2, sent, none, x); }
    forall j | 0 <= j < |k.procs| ensures Fate(k2, k.procs[j], k2.procs[j], [n] + sent, {}) {
      FateOn(k1, k2, k.procs[j], k1.procs[j], k2.procs[j], [n], sent, none, none);
      assert none + none == none;
    }
    LinedUp(k, k1);
    DeadOn(k1, k2, sent, none);
    LinedOn(k, k1, k2);
    hide Fate, Lined;
    FindIs(k1, n.owner);
    ToldFirst(k1, k2, n, sent);
  }

  lemma ToldFirst(k1: Table, k2: Table, n: Note, sent: seq<Note>)
    requires BoxesOk(k1) && Pids(k1) && n.Ended? && Went(k1, k2, sent, {})
    requires var owner := Find(k1, n.owner);
      sent == if owner >= 0 then SendLog(k1, DeathNote(n).m, k1.procs[owner].pid, EVENT, Death) else []
    ensures Told(k2, [n] + sent)
  {
    FindIs(k1, n.owner);
    if Gone(k1, n.owner) {
      GoneOn(k1, k2, sent, {}, n.owner);
    } else {
      var s :| 0 <= s < |k1.procs| && Alive(k1.procs[s]) && k1.procs[s].pid == n.owner;
      assert Find(k1, n.owner) == s;
    }
  }

  /** All that happens is that who ends processes, with this status. */
  ghost predicate KilledBy(log: seq<Note>, who: Killer, status: int) {
    && NoRumours(log)
    && forall n :: n in log ==> if n.Ended? then n.killer == who && n.status == status else n.from == Death
  }

  lemma KilledByOn(a: seq<Note>, b: seq<Note>, who: Killer, status: int)
    requires KilledBy(a, who, status) && KilledBy(b, who, status)
    ensures KilledBy(a + b, who, status)
  {
    NoRumoursOn(a, b);
  }

  lemma OneDeath(log: seq<Note>, n: Note)
    requires n.Ended? && (log == [n] || log == [n, DeathNote(n)])
    ensures KilledBy(log, n.killer, n.status) && forall m :: m in log && m.Ended? ==> m == n
  {
    forall j | 0 <= j < |log| ensures Founded(log, j) {
      if j > 0 { assert log[j - 1] == n; }
    }
  }

  /** Killing takes the right to; then the process is gone. */
  lemma ZapWent(k: Table, killer: int, i: nat, status: int, who: Killer) returns (log: seq<Note>)
    requires BoxesOk(k) && Pids(k) && i < |k.procs| && killer < |k.procs|
    requires who == if killer < 0 then Kernel else User(k.procs[killer].pid, k.procs[killer].uid)
    requires killer < 0 ==> k.shutting
    ensures Went(k, Zap(k, killer, i, status), log, {})
    ensures KilledBy(log, who, status)
    ensures forall n :: n in log && n.Ended? ==> n.pid == k.procs[i].pid && Alive(k.procs[i])
    ensures Alive(Zap(k, killer, i, status).procs[i]) ==> killer >= 0 && who.uid != 0 && who.uid != k.procs[i].uid
  {
    hide Term, Went;
    log := [];
    if !MayKill(k, killer, i) || !Alive(k.procs[i]) {
      WentNowhere(k);
    } else {
      var k1 := Term(k, i, status);
      log := TermWent(k, i, status, who);
      OneDeath(log, EndOf(k.procs[i], status, who));
      TermEnds(k, i, status);
      if k.procs[i].state == Waiting && i != k.current {
        ReleaseWent(k1, i);
        WentTwice(k, k1, Release(k1, i), log, []);
        assert log + [] == log;
      }
    }
  }

  lemma TermEnds(k: Table, i: nat, status: int)
    requires BoxesOk(k) && i < |k.procs|
    ensures Term(k, i, status).procs[i].state == Zombie
  {
    var k1 := Mark(k, i);
    var owner := Find(k1, k.procs[i].owner);
    if owner >= 0 { ZombieStays(k1, Obituary(k.procs[i], status), k1.procs[owner].pid, EVENT, i); }
    var k2 := if owner >= 0 then Send(k1, Obituary(k.procs[i], status), k1.procs[owner].pid, EVENT).0 else k1;
    FailSpares(k2, k.procs[i].pid, 0, i);
  }

  lemma {:induction false} FailSpares(k: Table, pid: nat, i: nat, j: nat)
    requires i <= |k.procs| && BoxesOk(k) && j < |k.procs| && k.procs[j].state != Waiting
    ensures FailClients(k, pid, i).procs[j] == k.procs[j]
    decreases |k.procs| - i
  {
    if i < |k.procs| { FailSpares(if Stranded(k.procs[i], pid) then WakeUp(k, i) else k, pid, i + 1, j); }
  }

  /** Killed are interruptable processes only. */
  ghost predicate Picked(k: Table, log: seq<Note>) {
    forall n :: n in log && n.Ended? ==> AliveAs(k, n.pid, true)
  }

  ghost predicate AliveAs(k: Table, pid: nat, interruptable: bool) {
    exists i :: 0 <= i < |k.procs| && Alive(k.procs[i]) && k.procs[i].pid == pid && (interruptable ==> k.procs[i].interruptable)
  }

  /** All interruptable processes from slot i on that the killer may end are dead. */
  ghost predicate Swept(k: Table, i: nat, who: Killer)
    requires who.User?
  {
    forall j :: i <= j < |k.procs| && k.procs[j].interruptable && (who.uid == 0 || who.uid == k.procs[j].uid) ==> !Alive(k.procs[j])
  }

  lemma {:induction false} KillAllWent(k: Table, killer: nat, status: int, i: nat, who: Killer) returns (log: seq<Note>)
    requires BoxesOk(k) && Pids(k) && i <= |k.procs| && killer < |k.procs|
    requires who == User(k.procs[killer].pid, k.procs[killer].uid)
    ensures Went(k, KillAll(k, killer, status, i), log, {}) && KilledBy(log, who, status)
    ensures Picked(k, log) && Swept(KillAll(k, killer, status, i), i, who)
    decreases |k.procs| - i
  {
    hide Zap, Went, Fates, KilledBy, Picked, Swept;
    log := [];
    if i == |k.procs| {
      WentNowhere(k);
      NothingKilled(k, who, status);
    } else {
      var k1, a := k, [];
      NothingKilled(k, who, status);
      if k.procs[i].state != Free && k.procs[i].interruptable {
        k1 := Zap(k, killer, i, status);
        a := ZapWent(k, killer, i, status, who);
        PickedOne(k, a, i);
      } else {
        WentNowhere(k);
      }
      WentPids(k, k1, a, {});
      WentParts(k, k1, a, {});
      WentSame(k, k1, a, {}, killer);
      WentSame(k, k1, a, {}, i);
      var b := KillAllWent(k1, killer, status, i + 1, who);
      var k2 := KillAll(k1, killer, status, i + 1);
      WentTwice(k, k1, k2, a, b);
      KilledByOn(a, b, who, status);
      PickedOn(k, k1, a, {}, b);
      WentParts(k1, k2, b, {});
      WentSame(k1, k2, b, {}, i);
      SweptMore(k2, i, who);
      log := a + b;
    }
  }

  lemma NothingKilled(k: Table, who: Killer, status: int)
    requires who.User?
    ensures KilledBy([], who, status) && Picked(k, []) && Swept(k, |k.procs|, who)
  {
  }

  lemma PickedOne(k: Table, log: seq<Note>, i: nat)
    requires i < |k.procs| && k.procs[i].interruptable
    requires forall n :: n in log && n.Ended? ==> n.pid == k.procs[i].pid && Alive(k.procs[i])
    ensures Picked(k, log)
  {
  }

  lemma PickedOn(k: Table, k1: Table, a: seq<Note>, times: set<nat>, b: seq<Note>)
    requires Fates(k, k1, a, times) && Picked(k, a) && Picked(k1, b)
    ensures Picked(k, a + b)
  {
    forall n | n in b && n.Ended? ensures AliveAs(k, n.pid, true) {
      assert AliveAs(k1, n.pid, true);
      var i :| 0 <= i < |k1.procs| && Alive(k1.procs[i]) && k1.procs[i].pid == n.pid && k1.procs[i].interruptable;
      assert Fate(k1, k.procs[i], k1.procs[i], a, times);
    }
    forall n | n in a + b && n.Ended? ensures AliveAs(k, n.pid, true) {
      if n in a { assert AliveAs(k, n.pid, true); }
    }
  }

  lemma SweptMore(k: Table, i: nat, who: Killer)
    requires who.User? && i < |k.procs| && Swept(k, i + 1, who)
    requires Alive(k.procs[i]) && k.procs[i].interruptable ==> who.uid != 0 && who.uid != k.procs[i].uid
    ensures Swept(k, i, who)
  {
  }

  lemma WentSame(k: Table, k': Table, log: seq<Note>, times: set<nat>, i: nat)
    requires Fates(k, k', log, times) && i < |k.procs|
    ensures |k'.procs| == |k.procs| && k'.procs[i].pid == k.procs[i].pid && k'.procs[i].uid == k.procs[i].uid
    ensures k'.procs[i].interruptable == k.procs[i].interruptable
    ensures k'.shutting == k.shutting && k'.nextPid == k.nextPid
    ensures Alive(k'.procs[i]) ==> Alive(k.procs[i])
  {
    assert Fate(k', k.procs[i], k'.procs[i], log, times);
  }

  /** No process before slot i waits any longer than until now; during a shutdown none is alive. */
  ghost predicate Timely(k: Table, now: nat, i: nat) {
    forall j :: 0 <= j < i && j < |k.procs| ==> !Late(k, k.procs[j], now)
  }

  predicate Late(k: Table, p: Proc, now: nat) {
    (p.state == Waiting && p.alarm && p.exptime <= now) || (k.shutting && Alive(p))
  }

  lemma TimelyOn(k: Table, k': Table, log: seq<Note>, times: set<nat>, now: nat, i: nat)
    requires Fates(k, k', log, times) && Timely(k, now, i)
    ensures Timely(k', now, i)
  {
    forall j | 0 <= j < i && j < |k'.procs| ensures !Late(k', k'.procs[j], now) {
      assert !Late(k, k.procs[j], now);
      assert Fate(k', k.procs[j], k'.procs[j], log, times);
    }
  }

  lemma ScanOneWent(k: Table, now: nat, i: nat) returns (log: seq<Note>)
    requires BoxesOk(k) && Pids(k) && i < |k.procs| && Timely(k, now, i)
    ensures Went(k, ScanOne(k, now, i), log, {now}) && KilledBy(log, Kernel, STAT_SHUTDOWN)
    ensures Timely(ScanOne(k, now, i), now, i + 1)
  {
    var p, k' := k.procs[i], ScanOne(k, now, i);
    log := [];
    hide Zap, Went, Fates, WakeUp;
    if k.shutting && p.state != Free {
      log := ZapWent(k, -1, i, STAT_SHUTDOWN, Kernel);
      WentMore(k, k', log, {}, {now});
    } else if p.state == Waiting && p.alarm && p.exptime <= now {
      assert now in {now};
      WakeUpWent(k, i, {now});
      WokenRuns(k, i);
    } else {
      WentNowhere(k);
      WentMore(k, k, [], {}, {now});
    }
    WentParts(k, k', log, {now});
    WentSame(k, k', log, {now}, i);
    TimelyOn(k, k', log, {now}, now, i);
  }

  lemma WokenRuns(k: Table, i: nat)
    requires i < |k.procs|
    ensures |WakeUp(k, i).procs| == |k.procs| && WakeUp(k, i).procs[i].state == Runnable
  {
  }

  lemma WentMore(k: Table, k': Table, log: seq<Note>, s: set<nat>, t: set<nat>)
    requires Went(k, k', log, s) && s <= t
    ensures Went(k, k', log, t)
  {
    forall i | 0 <= i < |k.procs| ensures Fate(k', k.procs[i], k'.procs[i], log, t) {
      assert Fate(k', k.procs[i], k'.procs[i], log, s);
    }
  }

  /** The scan ends processes at a shutdown only, and wakes all whose time is up. */
  lemma {:induction false} ScanWent(k: Table, now: nat, i: nat) returns (log: seq<Note>)
    requires BoxesOk(k) && Pids(k) && i <= |k.procs| && Timely(k, now, i)
    ensures Went(k, Scan(k, now, i), log, {now}) && KilledBy(log, Kernel, STAT_SHUTDOWN)
    ensures Timely(Scan(k, now, i), now, |k.procs|)
    decreases |k.procs| - i
  {
    hide ScanOne, Went;
    log := [];
    if i == |k.procs| {
      WentNowhere(k);
      WentMore(k, k, [], {}, {now});
    } else {
      var k1 := ScanOne(k, now, i);
      var a := ScanOneWent(k, now, i);
      WentPids(k, k1, a, {now});
      var b := ScanWent(k1, now, i + 1);
      WentOn(k, k1, Scan(k1, now, i + 1), a, b, {now}, {now});
      KilledByOn(a, b, Kernel, STAT_SHUTDOWN);
      assert {now} + {now} == {now};
      log := a + b;
    }
  }

  // ---- what interrupt handlers do ----

  /** The messages of devices for one mailbox, in order */
  function FromDevices(events: seq<Event>, pid: nat, box: nat): seq<Message> {
    if events == [] then [] else
      var rest, e := FromDevices(events[..|events| - 1], pid, box), events[|events| - 1];
      if e.Device? && e.dst == pid && e.box == box then rest + [e.m] else rest
  }

  lemma {:induction false} FromDevicesTwice(a: seq<Event>, b: seq<Event>, pid: nat, box: nat)
    ensures FromDevices(a + b, pid, box) == FromDevices(a, pid, box) + FromDevices(b, pid, box)
    decreases |b|
  {
    if b == [] {
      assert a + b == a;
    } else {
      var n := |b| - 1;
      FromDevicesTwice(a, b[..n], pid, box);
      assert (a + b)[..|a + b| - 1] == a + b[..n];
    }
  }

  function OfDevices(log: seq<Note>): seq<Note> {
    if log == [] then [] else
      var rest, n := OfDevices(log[..|log| - 1]), log[|log| - 1];
      if n.Sent? && n.from == Hardware then rest + [n] else rest
  }

  lemma {:induction false} OfDevicesTwice(a: seq<Note>, b: seq<Note>)
    ensures OfDevices(a + b) == OfDevices(a) + OfDevices(b)
    decreases |b|
  {
    if b == [] {
      assert a + b == a;
    } else {
      var n := |b| - 1;
      OfDevicesTwice(a, b[..n]);
      assert (a + b)[..|a + b| - 1] == a + b[..n];
    }
  }

  lemma {:induction false} NoDevices(log: seq<Note>)
    requires forall n :: n in log && n.Sent? ==> n.from != Hardware
    ensures OfDevices(log) == []
  {
    if log != [] { NoDevices(log[..|log| - 1]); }
  }

  /** A process that is alive at the end has got all that devices sent it, in order; replies only while it waits
      for one. What an interrupt was to end is dead. */
  ghost predicate Served(k': Table, log: seq<Note>, events: seq<Event>) {
    && (forall i, t: nat :: 0 <= i < |k'.procs| && Alive(k'.procs[i]) && t != REPLY ==>
          Arrived(OfDevices(log), k'.procs[i].pid, t) == FromDevices(events, k'.procs[i].pid, t))
    && forall e :: e in events && e.Interrupt? ==> Interrupted(k', e.killer)
  }

  /** Of the processes that can be interrupted, this one, if it is still there, has ended all that it may. */
  ghost predicate Interrupted(k: Table, killer: nat) {
    forall s :: 0 <= s < |k.procs| && k.procs[s].state != Free && k.procs[s].pid == killer ==> Swept(k, 0, User(killer, k.procs[s].uid))
  }

  lemma InterruptedOn(k1: Table, k2: Table, log: seq<Note>, times: set<nat>, killer: nat)
    requires Fates(k1, k2, log, times) && Interrupted(k1, killer)
    ensures Interrupted(k2, killer)
  {
    forall s | 0 <= s < |k2.procs| && k2.procs[s].state != Free && k2.procs[s].pid == killer
      ensures Swept(k2, 0, User(killer, k2.procs[s].uid))
    {
      assert Fate(k2, k1.procs[s], k2.procs[s], log, times);
      var who := User(killer, k1.procs[s].uid);
      assert Swept(k1, 0, who);
      forall j | 0 <= j < |k2.procs| && k2.procs[j].interruptable && (who.uid == 0 || who.uid == k2.procs[j].uid) ensures !Alive(k2.procs[j]) {
        WentSame(k1, k2, log, times, j);
      }
    }
  }

  /** All interruptable processes are swept at once. */
  lemma InterruptIs(k: Table, s: nat, status: int, log: seq<Note>)
    requires BoxesOk(k) && Pids(k) && s < |k.procs| && k.procs[s].state != Free
    requires var k' := KillAll(k, s, status, 0);
      Fates(k, k', log, {}) && Swept(k', 0, User(k.procs[s].pid, k.procs[s].uid))
    ensures Interrupted(KillAll(k, s, status, 0), k.procs[s].pid)
  {
    hide KillAll;
    var k' := KillAll(k, s, status, 0);
    forall i | 0 <= i < |k'.procs| && k'.procs[i].state != Free && k'.procs[i].pid == k.procs[s].pid
      ensures k'.procs[i].uid == k.procs[s].uid
    {
      assert Fate(k', k.procs[i], k'.procs[i], log, {});
    }
  }

  ghost predicate AllHonest(k: Table, log: seq<Note>) {
    NoRumours(log) && forall n :: n in log ==> Honest(k, n)
  }

  lemma HandleWent(k: Table, e: Event) returns (log: seq<Note>)
    requires TableOk(k, {}, {}) && (e.Device? ==> e.box < NTYPES)
    ensures BoxesOk(k) && Went(k, Handle(k, e), log, {}) && AllHonest(k, log) && Served(Handle(k, e), log, [e])
  {
    TableBoxes(k, {}, {});
    hide Went, Send, KillAll, Fates, Swept, Interrupted, TableOk;
    PidsOf(k);
    log := [];
    match e {
      case Device(m, dst, box) =>
        log := SendLog(k, m, dst, box, Hardware);
        SendWent(k, m, dst, box, Hardware);
        hide Served;
        SendServes(k, m, dst, box);
      case Interrupt(killer, status) =>
        FindIs(k, killer);
        var s := Find(k, killer);
        if s >= 0 {
          log := KillAllWent(k, s, status, 0, User(k.procs[s].pid, k.procs[s].uid));
          WentParts(k, Handle(k, e), log, {});
          InterruptIs(k, s, status, log);
        } else {
          WentNowhere(k);
          NobodyThere(k, killer);
        }
        NoneServed(Handle(k, e), log, e);
    }
  }

  lemma NobodyThere(k: Table, killer: nat)
    requires forall s :: 0 <= s < |k.procs| && k.procs[s].state != Free ==> k.procs[s].pid != killer
    ensures Interrupted(k, killer)
  {
  }

  lemma NoneServed(k': Table, log: seq<Note>, e: Event)
    requires e.Interrupt? && (forall n :: n in log && n.Sent? ==> n.from != Hardware) && Interrupted(k', e.killer)
    ensures Served(k', log, [e])
  {
    NoDevices(log);
    assert [e][..0] == [];
  }

  lemma SendServes(k: Table, m: Message, dst: nat, box: nat)
    requires TableOk(k, {}, {}) && box < NTYPES && BoxesOk(k)
    ensures Served(Send(k, m, dst, box).0, SendLog(k, m, dst, box, Hardware), [Event.Device(m, dst, box)])
  {
    SendOk(k, {}, {}, m, dst, box);
    hide TableOk, Send, AlivePids;
    var (k', ok) := Send(k, m, dst, box);
    if !ok && box != REPLY { NotAliveGone(k', dst); }
    OneServed(k', SendLog(k, m, dst, box, Hardware), m, dst, box);
  }

  lemma NotAliveGone(k: Table, pid: nat)
    requires pid !in AlivePids(k.procs)
    ensures Gone(k, pid)
  {
  }

  lemma OneServed(k': Table, log: seq<Note>, m: Message, dst: nat, box: nat)
    requires log == [Sent(dst, box, m, Hardware)] || (log == [] && (box == REPLY || Gone(k', dst)))
    ensures Served(k', log, [Event.Device(m, dst, box)])
  {
    var e := Event.Device(m, dst, box);
    assert [e][..0] == [];
    assert OfDevices(log) == log by { if log != [] { assert log[..0] == []; } }
    forall i, t: nat | 0 <= i < |k'.procs| && Alive(k'.procs[i]) && t != REPLY
      ensures Arrived(log, k'.procs[i].pid, t) == FromDevices([e], k'.procs[i].pid, t)
    {
      if log != [] { ArrivedOne(log[0], k'.procs[i].pid, t); }
    }
  }

  lemma ServedOn(k1: Table, k2: Table, log: seq<Note>, times: set<nat>, a: seq<Note>, b: seq<Note>, c: seq<Event>,
          d: seq<Event>)
    requires Fates(k1, k2, b, times) && Served(k1, a, c) && Served(k2, b, d)
    ensures Served(k2, a + b, c + d)
  {
    OfDevicesTwice(a, b);
    forall e | e in c + d && e.Interrupt? ensures Interrupted(k2, e.killer) {
      if e in c { InterruptedOn(k1, k2, b, times, e.killer); }
    }
    hide Interrupted;
    forall i, t: nat | 0 <= i < |k2.procs| && Alive(k2.procs[i]) && t != REPLY
      ensures Arrived(OfDevices(a + b), k2.procs[i].pid, t) == FromDevices(c + d, k2.procs[i].pid, t)
    {
      WentSame(k1, k2, b, times, i);
      ArrivedTwice(OfDevices(a), OfDevices(b), k2.procs[i].pid, t);
      FromDevicesTwice(c, d, k2.procs[i].pid, t);
    }
  }

  lemma HonestOn(k: Table, k1: Table, a: seq<Note>, times: set<nat>, b: seq<Note>)
    requires Fates(k, k1, a, times) && AllHonest(k, a) && AllHonest(k1, b)
    ensures AllHonest(k, a + b)
  {
    NoRumoursOn(a, b);
    forall n | n in b && n.Ended? && n.killer.User? ensures Honest(k, n) {
      assert Honest(k1, n);
      var s :| 0 <= s < |k1.procs| && k1.procs[s].state != Free && k1.procs[s].pid == n.killer.pid && k1.procs[s].uid == n.killer.uid;
      assert Fate(k1, k.procs[s], k1.procs[s], a, times);
    }
    forall n | n in a + b ensures Honest(k, n) {
      if n in a { assert Honest(k, n); } else { assert n in b && Honest(k1, n); }
    }
  }

  lemma {:induction false} HandleAllWent(k: Table, events: seq<Event>) returns (log: seq<Note>)
    requires TableOk(k, {}, {}) && EventsOk(events)
    ensures BoxesOk(k) && Went(k, HandleAll(k, events), log, {}) && AllHonest(k, log)
    ensures Served(HandleAll(k, events), log, events)
    decreases |events|
  {
    hide Handle, Went, Fates, TableOk, Served, AllHonest;
    TableBoxes(k, {}, {});
    log := [];
    if events == [] {
      WentNowhere(k);
      NothingServed(k);
    } else {
      var e, k1 := events[0], Handle(k, events[0]);
      HandleOk(k, e);
      var a := HandleWent(k, e);
      var b := HandleAllWent(k1, events[1..]);
      var k2 := HandleAll(k1, events[1..]);
      WentTwice(k, k1, k2, a, b);
      WentParts(k, k1, a, {});
      WentParts(k1, k2, b, {});
      ServedOn(k1, k2, b, {}, a, b, [e], events[1..]);
      HonestOn(k, k1, a, {}, b);
      assert [e] + events[1..] == events;
      log := a + b;
    }
  }

  lemma NothingServed(k: Table)
    ensures Served(k, [], []) && AllHonest(k, [])
  {
  }

  // ---- the next process ----

  ghost predicate Popped(k: Table, k': Table, n: int) {
    if n < 0 then k'.runq == [] && forall j :: 0 <= j < |k.runq| ==> Dead(k, k.runq[j])
    else exists c: nat :: c < |k.runq| && k.runq[c] == n && k'.runq == k.runq[c + 1..] && forall j :: 0 <= j < c ==> Dead(k, k.runq[j])
  }

  lemma {:induction false} PopWent(k: Table)
    requires TableOk(k, {}, {})
    ensures forall j :: 0 <= j < |k.runq| ==> k.runq[j] < |k.procs|
    ensures var (k', n) := Pop(k); Fates(k, k', [], {}) && Popped(k, k', n) && k'.current == k.current
    decreases |k.runq|
  {
    QueueInTable(k, {});
    TableBoxes(k, {}, {});
    WentNowhere(k);
    hide TableOk, Fates, Went, Release, Fewer;
    if k.runq != [] {
      var n, rest := k.runq[0], k.(runq := k.runq[1..]);
      HeadTaken(k);
      if k.procs[n].state == Runnable {
        assert k.runq[0] == n;
        TableBoxes(rest, {n}, {});
        WentNowhere(rest);
        Unqueued(k, rest.runq, rest);
      } else {
        ReleaseHead(k);
        var k1 := Release(rest, n);
        PopWent(k1);
        FatesTwice(k, k1, Pop(k1).0);
        PoppedMore(k, k1, Pop(k1).0, Pop(k1).1, [], {});
      }
    }
  }

  /** A zombie at the head of the run queue is released. */
  lemma ReleaseHead(k: Table)
    requires TableOk(k, {}, {}) && k.runq != [] && k.runq[0] < |k.procs| && k.procs[k.runq[0]].state != Runnable
    ensures var k1 := Release(k.(runq := k.runq[1..]), k.runq[0]);
      && TableOk(k1, {}, {}) && Fates(k, k1, [], {}) && k1.current == k.current && k1.runq == k.runq[1..]
      && |k1.procs| == |k.procs| && forall i :: 0 <= i < |k.procs| ==> Alive(k1.procs[i]) == Alive(k.procs[i])
    ensures !Alive(k.procs[k.runq[0]])
  {
    var n, rest := k.runq[0], k.(runq := k.runq[1..]);
    QueueInTable(k, {});
    HeadTaken(k);
    TableBoxes(rest, {n}, {});
    ReleaseOk(rest, {n}, {}, n);
    assert {n} - {n} == {};
    hide TableOk, Fates, Went;
    ReleaseWent(rest, n);
    Unqueued(k, rest.runq, Release(rest, n));
  }

  lemma Unqueued(k: Table, runq: seq<nat>, k': Table)
    requires Went(k.(runq := runq), k', [], {})
    ensures Fates(k, k', [], {})
  {
  }

  lemma FatesTwice(k: Table, k1: Table, k2: Table)
    requires Fates(k, k1, [], {}) && Fates(k1, k2, [], {})
    ensures Fates(k, k2, [], {})
  {
    var none: seq<Note>, never: set<nat> := [], {};
    FatesOn(k, k1, k2, none, none, never, never);
    assert none + none == none && never + never == never;
  }

  lemma PoppedMore(k: Table, k1: Table, k2: Table, n: int, log: seq<Note>, times: set<nat>)
    requires k.runq != [] && k.runq[0] < |k.procs| && !Alive(k.procs[k.runq[0]]) && |k1.procs| == |k.procs|
    requires k1.runq == k.runq[1..] && Popped(k1, k2, n)
    requires forall i :: 0 <= i < |k.procs| ==> Alive(k.procs[i]) == Alive(k1.procs[i])
    ensures Popped(k, k2, n)
  {
    forall j | 1 <= j < |k.runq| ensures k.runq[j] == k1.runq[j - 1] {
    }
    if n >= 0 {
      var c: nat :| c < |k1.runq| && k1.runq[c] == n && k2.runq == k1.runq[c + 1..] && forall j :: 0 <= j < c ==> Dead(k1, k1.runq[j]);
      forall j | 0 <= j < c + 1 ensures Dead(k, k.runq[j]) {
        if j > 0 { assert Dead(k1, k1.runq[j - 1]); }
      }
      assert k.runq[c + 1] == n && k2.runq == k.runq[c + 2..];
    } else {
      forall j | 0 <= j < |k.runq| ensures Dead(k, k.runq[j]) {
        if j > 0 { assert Dead(k1, k1.runq[j - 1]); }
      }
    }
  }

  lemma SwitchFates(k: Table, n: nat)
    requires TableOk(k, {n}, {}) && BoxesOk(k) && n < |k.procs| && n != k.current && k.procs[n].state == Runnable
    ensures Fates(k, Switch(k, n), [], {}) && Switch(k, n).current == n
    ensures k.current < |k.procs|
    ensures Switch(k, n).runq == k.runq + if k.procs[k.current].state == Runnable then [k.current] else []
    ensures Switch(k, n).procs[n] == k.procs[n]
  {
    WentNowhere(k);
    if k.procs[k.current].state == Zombie { ReleaseWent(k, k.current); }
  }

  /** Whoever was on the run queue is nearer to its head, or runs now, or is dead. If somebody else runs than
      before, it is nearer by one at least. */
  ghost predicate Passed(k: Table, k': Table) {
    exists c: nat :: Advanced(k, k', c) && (k'.current != k.current && k.runq != [] ==> c >= 1) && LeftFor(k, k', c)
  }

  ghost predicate LeftFor(k: Table, k': Table, c: nat)
    requires c <= |k.runq|
  {
    forall j :: 0 <= j < c ==> k.runq[j] == k'.current || Dead(k', k.runq[j])
  }

  lemma PassedLater(k: Table, k1: Table, k2: Table)
    requires Lined(k, k1) && Passed(k1, k2) && k1.current == k.current && forall i: nat :: Dead(k1, i) ==> Dead(k2, i)
    ensures Passed(k, k2)
  {
    var c: nat :| Advanced(k, k1, c) && forall j :: 0 <= j < c ==> Dead(k1, k.runq[j]);
    var d: nat :| Advanced(k1, k2, d) && (k2.current != k1.current && k1.runq != [] ==> d >= 1) && LeftFor(k1, k2, d);
    var e := AdvancedOn(k, k1, k2, c, d);
    hide Dead, Advanced;
    forall j | 0 <= j < e ensures k.runq[j] == k2.current || Dead(k2, k.runq[j]) {
      if j >= c { assert k.runq[j] == k1.runq[j - c]; }
    }
    assert LeftFor(k, k2, e);
  }

  lemma TurnPasses(k: Table, k2: Table, n: nat, k': Table)
    requires Popped(k, k2, n) && k'.current == n && n < |k.procs|
    requires exists more :: k'.runq == k2.runq + more
    requires forall i: nat :: Dead(k, i) ==> Dead(k', i)
    ensures Passed(k, k')
  {
    var c: nat :| c < |k.runq| && k.runq[c] == n && k2.runq == k.runq[c + 1..] && forall j :: 0 <= j < c ==> Dead(k, k.runq[j]);
    assert Advanced(k, k', c + 1) && LeftFor(k, k', c + 1);
  }

  lemma EmptyPasses(k: Table, k': Table)
    requires Popped(k, k', -1) && k'.current == k.current && forall i: nat :: Dead(k, i) ==> Dead(k', i)
    ensures Lined(k, k')
  {
    assert Advanced(k, k', |k.runq|);
  }

  lemma LinedPasses(k: Table, k': Table)
    requires Lined(k, k') && k'.current == k.current
    ensures Passed(k, k')
  {
    var c: nat :| Advanced(k, k', c) && forall j :: 0 <= j < c ==> Dead(k', k.runq[j]);
    assert LeftFor(k, k', c);
  }

  // ---- giving up the CPU ----

  function EventsOf(rounds: seq<Round>): seq<Event> {
    if rounds == [] then [] else rounds[0].events + EventsOf(rounds[1..])
  }

  /** All that can be said of a process that gives up the CPU until another one, or itself, goes on */
  ghost predicate Yielded(k: Table, k': Table, o: Outcome, log: seq<Note>, times: set<nat>, events: seq<Event>) {
    && Fates(k, k', log, times) && AllHonest(k, log) && Served(k', log, events) && Passed(k, k')
    && (k'.current != k.current ==> o == Resumed) && (o == Resumed && k'.current == k.current ==> k'.runq == [])
    && (o == Resumed ==> exists now :: now in times && Timely(k', now, |k'.procs|))
  }

  lemma YieldedLater(k: Table, k1: Table, k2: Table, o: Outcome, a: seq<Note>, b: seq<Note>, s: set<nat>, t: set<nat>,
                     c: seq<Event>, d: seq<Event>)
    requires Went(k, k1, a, s) && AllHonest(k, a) && Served(k1, a, c) && k1.current == k.current
    requires Yielded(k1, k2, o, b, t, d)
    ensures Yielded(k, k2, o, a + b, s + t, c + d)
  {
    FatesOn(k, k1, k2, a, b, s, t);
    HonestOn(k, k1, a, s, b);
    ServedOn(k1, k2, b, t, a, b, c, d);
    DeadOn(k1, k2, b, t);
    hide Fates, Served, AllHonest, Timely;
    PassedLater(k, k1, k2);
    hide Passed, Lined;
    if o == Resumed {
      var now :| now in t && Timely(k2, now, |k2.procs|);
      assert now in s + t;
    }
  }

  lemma KernelServed(k: Table, k': Table, log: seq<Note>)
    requires KilledBy(log, Kernel, STAT_SHUTDOWN)
    ensures AllHonest(k, log) && Served(k', log, [])
  {
    NoDevices(log);
  }

  /** The scan and the next process, if there is one */
  lemma ScanTurn(k: Table, now: nat, log: seq<Note>)
    requires TableOk(k, {}, {}) && BoxesOk(k)
    requires Went(k, Scan(k, now, 0), log, {now}) && KilledBy(log, Kernel, STAT_SHUTDOWN)
    requires Timely(Scan(k, now, 0), now, |k.procs|) && TableOk(Scan(k, now, 0), {}, {}) && Fewer(k, Scan(k, now, 0))
    ensures var k1 := Scan(k, now, 0);
      && (forall j :: 0 <= j < |k1.runq| ==> k1.runq[j] < |k1.procs|)
      && var (k2, n) := Pop(k1);
      if n >= 0 then k2.current < |k2.procs| && Yielded(k, Switch(k2, n), Resumed, log, {now}, [])
      else
        && Went(k, k2, log, {now}) && k2.current == k.current && k2.runq == [] && Timely(k2, now, |k2.procs|)
        && AllHonest(k, log) && Served(k2, log, [])
  {
    hide Scan, Went, TableOk, Fates, Timely, Switch, Pop;
    var k1 := Scan(k, now, 0);
    PopOk(k1);
    PopWent(k1);
    var (k2, n) := Pop(k1);
    WentParts(k, k1, log, {now});
    TimelyOn(k1, k2, [], {}, now, |k1.procs|);
    FatesOn(k, k1, k2, log, [], {now}, {});
    var never: set<nat> := {};
    assert log + [] == log && {now} + never == {now};
    FatesDead(k1, k2, [], {});
    if n >= 0 {
      CurrentIn(k2, {n});
      TableBoxes(k2, {n}, {});
      SwitchFates(k2, n);
      var k3 := Switch(k2, n);
      FatesOn(k, k2, k3, log, [], {now}, {});
      FatesDead(k2, k3, [], {});
      FatesTwice(k1, k2, k3);
      FatesDead(k1, k3, [], {});
      TurnPasses(k1, k2, n, k3);
      PassedLater(k, k1, k3);
      TimelyOn(k2, k3, [], {}, now, |k1.procs|);
      KernelServed(k, k3, log);
      WentSame(k2, k3, [], {}, n);
      assert now in {now};
    } else {
      EmptyPasses(k1, k2);
      LinedOn(k, k1, k2);
      KernelServed(k, k2, log);
      WentIs(k, k2, log, {now});
    }
  }

  lemma WentParts(k: Table, k': Table, log: seq<Note>, times: set<nat>)
    requires Went(k, k', log, times)
    ensures Fates(k, k', log, times) && Lined(k, k') && |k'.procs| == |k.procs|
  {
  }

  lemma WentIs(k: Table, k': Table, log: seq<Note>, times: set<nat>)
    requires Fates(k, k', log, times) && Lined(k, k')
    ensures Went(k, k', log, times)
  {
  }

  lemma FatesDead(k: Table, k': Table, log: seq<Note>, times: set<nat>)
    requires Fates(k, k', log, times)
    ensures |k'.procs| == |k.procs| && forall i: nat :: Dead(k, i) ==> Dead(k', i)
  {
    DeadOn(k, k', log, times);
  }

  /** The machine stops once the curfew of a shutdown is over, or a single process is left then. */
  ghost predicate Ends(k: Table, o: Outcome, curfew: nat, times: set<nat>) {
    var late := curfew != 0 && exists now :: now in times && now > curfew;
    if o == Stopped then late || (k.shutting && k.nprocs == 1) else !late && (o == Idle ==> !(k.shutting && k.nprocs == 1))
  }

  lemma Unmoved(k: Table, o: Outcome, now: nat)
    requires BoxesOk(k) && o != Resumed
    ensures Yielded(k, k, o, [], {now}, [])
  {
    WentNowhere(k);
    WentMore(k, k, [], {}, {now});
    WentParts(k, k, [], {now});
    NothingServed(k);
    hide Fates, Served, AllHonest;
    LinedPasses(k, k);
  }

  lemma PidsOf(k: Table)
    requires TableOk(k, {}, {})
    ensures Pids(k)
  {
  }

  lemma NoneTimely(k: Table, now: nat)
    ensures Timely(k, now, 0)
  {
  }

  /** Nobody else can run: the current process goes on, or the machine halts. */
  lemma StillYielded(k: Table, k': Table, o: Outcome, log: seq<Note>, now: nat)
    requires Went(k, k', log, {now}) && k'.current == k.current && k'.runq == [] && Timely(k', now, |k'.procs|)
    requires AllHonest(k, log) && Served(k', log, [])
    ensures Yielded(k, k', o, log, {now}, [])
  {
    WentParts(k, k', log, {now});
    hide Fates, Served, AllHonest, Went, Timely;
    LinedPasses(k, k');
    assert now in {now};
  }

  lemma YieldedTwice(k: Table, k2: Table, k3: Table, k4: Table, o: Outcome, log: seq<Note>, a: seq<Note>, b: seq<Note>,
                     now: nat, t: set<nat>, c: seq<Event>, d: seq<Event>)
    requires Went(k, k2, log, {now}) && AllHonest(k, log) && Served(k2, log, []) && k2.current == k.current
    requires Went(k2, k3, a, {}) && AllHonest(k2, a) && Served(k3, a, c) && k3.current == k2.current
    requires Yielded(k3, k4, o, b, t, d)
    ensures Yielded(k, k4, o, log + (a + b), {now} + t, c + d)
  {
    hide Went, AllHonest, Served, Yielded;
    var never: set<nat>, none: seq<Event> := {}, [];
    YieldedLater(k2, k3, k4, o, a, b, never, t, c, d);
    assert never + t == t && none + (c + d) == c + d;
    YieldedLater(k, k2, k4, o, log, a + b, {now}, t, none, c + d);
  }

  lemma FirstRound(rounds: seq<Round>, h: nat)
    requires rounds != [] && h < |rounds|
    ensures EventsOf(rounds[..h + 1]) == rounds[0].events + EventsOf(rounds[1..][..h])
  {
    assert rounds[..h + 1][1..] == rounds[1..][..h];
  }

  /** One of the first n suspensions ends at this time. */
  ghost predicate EndsAt(rounds: seq<Round>, n: nat, x: nat) {
    exists j :: 0 <= j < n && j < |rounds| && rounds[j].now == x
  }

  lemma EarlierRound(rounds: seq<Round>, h: nat, x: nat)
    requires rounds != [] && h < |rounds|
    ensures x == rounds[0].now || EndsAt(rounds[1..], h, x) <==> EndsAt(rounds, h + 1, x)
  {
    if j :| 0 <= j < h && rounds[1..][j].now == x { assert rounds[j + 1].now == x; }
    if j :| 0 < j < h + 1 && rounds[j].now == x { assert rounds[1..][j - 1].now == x; }
  }

  lemma EndsMore(k: Table, o: Outcome, curfew: nat, now: nat, t: set<nat>)
    requires Ends(k, o, curfew, t) && !(curfew != 0 && now > curfew)
    ensures Ends(k, o, curfew, {now} + t)
  {
  }

  lemma FewerParts(k: Table, k': Table)
    requires Fewer(k, k')
    ensures k'.current == k.current && |k'.procs| == |k.procs|
  {
  }

  /** All that the loop of proc_yield does, and when */
  lemma {:induction false} LoopWent(k: Table, curfew: nat, now: nat, rounds: seq<Round>)
    returns (log: seq<Note>, times: set<nat>, handled: nat)
    requires TableOk(k, {}, {}) && BoxesOk(k) && RoundsOk(rounds)
    ensures handled <= |rounds|
    ensures var (k', o) := YieldLoop(k, curfew, now, rounds);
      && Yielded(k, k', o, log, times, EventsOf(rounds[..handled]))
      && Ends(k', o, curfew, times) && (o == Idle ==> handled == |rounds|)
    ensures forall x :: x in times <==> x == now || EndsAt(rounds, handled, x)
    decreases |rounds|
  {
    hide TableOk, Scan, Pop, Switch, HandleAll, Went, Fates, Served, AllHonest, Passed, Lined, Timely, Fewer;
    log, times, handled := [], {now}, 0;
    assert EventsOf(rounds[..0]) == [];
    if curfew != 0 && now > curfew {
      Unmoved(k, Stopped, now);
      assert now in times;
    } else {
      ScanOk(k, now, 0);
      PidsOf(k);
      NoneTimely(k, now);
      log := ScanWent(k, now, 0);
      ScanTurn(k, now, log);
      var k1 := Scan(k, now, 0);
      PopOk(k1);
      var (k2, n) := Pop(k1);
      if n < 0 {
        CurrentIn(k2, {});
        if k2.procs[k2.current].state == Runnable || (k2.nprocs == 1 && k2.shutting) || rounds == [] {
          StillYielded(k, k2, YieldLoop(k, curfew, now, rounds).1, log, now);
        } else {
          HandleAllOk(k2, rounds[0].events);
          var k3 := HandleAll(k2, rounds[0].events);
          TableBoxes(k3, {}, {});
          var a := HandleAllWent(k2, rounds[0].events);
          FewerParts(k2, k3);
          var b, t, h := LoopWent(k3, curfew, rounds[0].now, rounds[1..]);
          var (k4, o) := YieldLoop(k3, curfew, rounds[0].now, rounds[1..]);
          YieldedTwice(k, k2, k3, k4, o, log, a, b, now, t, rounds[0].events, EventsOf(rounds[1..][..h]));
          FirstRound(rounds, h);
          EndsMore(k4, o, curfew, now, t);
          log, times, handled := log + (a + b), {now} + t, h + 1;
          forall x ensures x == rounds[0].now || EndsAt(rounds[1..], h, x) <==> EndsAt(rounds, h + 1, x) { EarlierRound(rounds, h, x); }
        }
      }
    }
  }

  /** What was handled and when, of some suspensions */
  ghost predicate During(rounds: seq<Round>, handled: nat, times: set<nat>) {
    0 < handled <= |rounds| && forall x :: x in times <==> EndsAt(rounds, handled, x)
  }

  /** All that proc_yield does, and when */
  lemma YieldWent(k: Table, curfew: nat, rounds: seq<Round>) returns (log: seq<Note>, times: set<nat>, handled: nat)
    requires TableOk(k, {}, {}) && RoundsOk(rounds) && |rounds| > 0
    ensures During(rounds, handled, times)
    ensures var (k', o) := Yield(k, curfew, rounds);
      && Yielded(k, k', o, log, times, EventsOf(rounds[..handled]))
      && Ends(k', o, curfew, times) && (o == Idle ==> handled == |rounds|)
  {
    hide TableOk, HandleAll, YieldLoop, Yielded, Fewer, AllHonest, Served, Went;
    HandleAllOk(k, rounds[0].events);
    var k1 := HandleAll(k, rounds[0].events);
    TableBoxes(k1, {}, {});
    var a := HandleAllWent(k, rounds[0].events);
    FewerParts(k, k1);
    var b, t, h := LoopWent(k1, curfew, rounds[0].now, rounds[1..]);
    var (k2, o) := YieldLoop(k1, curfew, rounds[0].now, rounds[1..]);
    var never: set<nat> := {};
    YieldedLater(k, k1, k2, o, a, b, never, t, rounds[0].events, EventsOf(rounds[1..][..h]));
    FirstRound(rounds, h);
    assert never + t == t;
    log, times, handled := a + b, t, h + 1;
    forall x ensures x == rounds[0].now || EndsAt(rounds[1..], h, x) <==> EndsAt(rounds, h + 1, x) { EarlierRound(rounds, h, x); }
  }
}
