/** Starting, stopping and reconfiguring a service (src/master/master_service.c
    and the update branch of master_config in src/master/master_conf.c), and the
    exact condition under which the listen socket stays watched. */
module Services {
  import opened Timers
  import opened Master

  // ---------------------------------------------------------------------
  // Start

  /** A descriptor that no service holds. */
  ghost predicate UnusedFd(m: Master, fd: int) {
    fd >= 0 && forall t :: t in m.servs ==> m.servs[t].listenFd != fd && m.servs[t].statusFd != fd
  }

  /** A descriptor that no service holds, but for the status pipe of service s,
      which is closed before the new one is opened. */
  ghost predicate FreeFor(m: Master, s: int, fd: int)
    requires s in m.servs
  {
    && fd >= 0 && m.servs[s].listenFd != fd
    && forall t :: t in m.servs && t != s ==> m.servs[t].listenFd != fd && m.servs[t].statusFd != fd
  }

  lemma NoKidsNoTimers(m: Master, s: int)
    requires Inv(m) && s !in m.servs
    ensures Kids(m.table, s) == {} && IdleKids(m.table, s) == {}
    ensures !HasKey(m.timers.queue, UnthrottleKey(s))
  {
    assert forall p :: p !in Kids(m.table, s) && p !in IdleKids(m.table, s);
    forall i | 0 <= i < |m.timers.queue| ensures m.timers.queue[i].key != UnthrottleKey(s) {
      assert m.timers.queue[i] in m.timers.queue;
    }
  }

  /** A started service is watched, and nothing changes for the others. */
  lemma StartResult(m: Master, s: int, maxProc: nat, delay: nat, condwake: bool, lfd: int, sfd: int)
    requires Inv(m) && s !in m.servs && UnusedFd(m, lfd) && UnusedFd(m, sfd) && lfd != sfd
    ensures StartService(m, s, Fresh(maxProc, delay, condwake), lfd, sfd).Fine?
    ensures var m' := StartService(m, s, Fresh(maxProc, delay, condwake), lfd, sfd).value;
      && m'.table == m.table && m'.timers == m.timers
      && m'.servs == m.servs[s := Serv(false, true, condwake, maxProc, 0, 0, delay, lfd, sfd)]
      && m'.size == m.size
      && m'.reg == Registered(Registered(m.reg, lfd, AvailEvent(s), m.size), sfd, StatusEvent(s), m.size)
  {
    ListenSettles(Put(m, s, Fresh(maxProc, delay, condwake).(listenFd := lfd)), s);
  }

  lemma StartKeeps(m: Master, s: int, maxProc: nat, delay: nat, condwake: bool, lfd: int, sfd: int)
    requires Inv(m) && s !in m.servs && UnusedFd(m, lfd) && UnusedFd(m, sfd) && lfd != sfd
    ensures StartService(m, s, Fresh(maxProc, delay, condwake), lfd, sfd).Fine?
    ensures var m' := StartService(m, s, Fresh(maxProc, delay, condwake), lfd, sfd).value;
      && Inv(m') && m'.table == m.table && m'.timers == m.timers
      && m'.servs == m.servs[s := Serv(false, true, condwake, maxProc, 0, 0, delay, lfd, sfd)]
      && m'.size == m.size
      && m'.reg == Registered(Registered(m.reg, lfd, AvailEvent(s), m.size), sfd, StatusEvent(s), m.size)
  {
    NoKidsNoTimers(m, s);
    StartResult(m, s, maxProc, delay, condwake, lfd, sfd);
    var m' := StartService(m, s, Fresh(maxProc, delay, condwake), lfd, sfd).value;
    forall t | t in m.servs ensures ServInv(m', t) { assert ServInv(m, t); }
    assert ServInv(m', s);
  }

  // ---------------------------------------------------------------------
  // Stop

  lemma StopBeginKeeps(m: Master, s: int, now: int)
    requires Inv(m) && s in m.servs && m.servs[s].statusFd >= 0
    ensures StopBegin(m, s, now).Fine? && Inv(StopBegin(m, s, now).value)
    ensures var m' := StopBegin(m, s, now).value;
      && m'.servs.Keys == m.servs.Keys && m'.servs[s] == m.servs[s].(statusFd := -1, throttle := true)
      && m'.table == m.table
      && (forall t :: t in m.servs && t != s ==> m'.servs[t] == m.servs[t])
      && m'.reg == m.reg - {m.servs[s].statusFd} && m'.size == m.size
  {
    StatusCleanupKeeps(m, s);
    var m1 := StatusCleanup(m, s).value;
    assert Inv(Throttle(m1, s, now)) by { ThrottleKeeps(m1, s, now); }
  }

  lemma StatusCleanupKeeps(m: Master, s: int)
    requires Inv(m) && s in m.servs && m.servs[s].statusFd >= 0
    ensures StatusCleanup(m, s).Fine? && Inv(StatusCleanup(m, s).value)
    ensures var m' := StatusCleanup(m, s).value;
      && m'.servs == m.servs[s := m.servs[s].(statusFd := -1)] && m'.table == m.table
      && m'.timers == m.timers && m'.reg == m.reg - {m.servs[s].statusFd} && m'.size == m.size
  {
    var m1 := StatusCleanup(m, s).value;
    forall t | t in m.servs ensures ServInv(m1, t) { StatusCleanupServ(m, m1, s, t); }
  }

  lemma StatusCleanupServ(m: Master, m1: Master, s: int, t: int)
    requires Inv(m) && s in m.servs && m.servs[s].statusFd >= 0 && StatusCleanup(m, s) == Fine(m1)
    requires t in m.servs
    ensures t in m1.servs && ServInv(m1, t)
  {
    assert ServInv(m, t);
    assert m.servs[t].listenFd != m.servs[s].statusFd;
  }

  /** Opening a status pipe is refused exactly while one is open, and closing it
      brings back what was before. */
  lemma StatusRoundTrip(m: Master, s: int, fd: nat, fd': nat)
    requires Inv(m) && s in m.servs && UnusedFd(m, fd) && m.servs[s].statusFd == -1
    ensures StatusInit(m, s, fd).Fine? && StatusCleanup(m, s).Panic?
    ensures var m1 := StatusInit(m, s, fd).value;
      s in m1.servs && StatusInit(m1, s, fd').Panic? && StatusCleanup(m1, s) == Fine(m)
  {
    var m1 := StatusInit(m, s, fd).value;
    assert fd in m.reg ==> OwnedBy(m, fd, m.reg[fd]);
    assert m.reg[fd := StatusEvent(s)] - {fd} == m.reg;
    assert m1.servs[s := m.servs[s]] == m.servs;
  }

  /** Nothing in the manager's state leads to service s. */
  ghost predicate NoReference(m: Master, s: int) {
    && (forall p :: p in m.table ==> m.table[p].serv != s)
    && (forall t :: t in m.timers.queue ==> t.key != UnthrottleKey(s))
    && (forall fd :: fd in m.reg ==> m.reg[fd].serv != s)
  }

  /** free_master_ent */
  function Free(m: Master, s: int): Master { m.(servs := m.servs - {s}) }

  /** What the end of master_stop_service makes of the unthrottled state m1. */
  ghost predicate Closed(m1: Master, m': Master, s: int)
    requires s in m1.servs
  {
    && m'.table == m1.table && m'.timers == m1.timers && m'.servs.Keys == m1.servs.Keys && m'.size == m1.size
    && (forall t :: t in m1.servs && t != s ==> m'.servs[t] == m1.servs[t])
    && m'.reg == if m1.servs[s].listen then m1.reg - {m1.servs[s].listenFd} else m1.reg
  }

  lemma ClosedHasNoReference(m1: Master, m': Master, s: int)
    requires Inv(m1) && s in m1.servs && Closed(m1, m', s)
    requires m1.servs[s].statusFd < 0 && m1.servs[s].totalProc == 0 && !m1.servs[s].throttle
    ensures NoReference(m', s)
  {
    assert ServInv(m1, s);
    NoTableReference(m1, s);
    var q := m1.timers.queue;
    assert forall i :: 0 <= i < |q| ==> q[i].key != UnthrottleKey(s);
    forall fd | fd in m'.reg ensures m'.reg[fd].serv != s {
      assert OwnedBy(m1, fd, m1.reg[fd]);
    }
  }

  lemma StopEndClean(m: Master, s: int)
    requires Inv(m) && s in m.servs && m.servs[s].statusFd < 0 && m.servs[s].totalProc == 0
    ensures StopEnd(m, s).Fine?
    ensures var m' := StopEnd(m, s).value;
      NoReference(m', s) && Inv(Free(m', s)) && m'.table == m.table && m'.servs.Keys == m.servs.Keys
  {
    assert m.servs[s].listenFd >= 0 by { assert ServInv(m, s); }
    UnthrottleShape(m, s);
    var m1 := Unthrottle(m, s).value;
    assert Inv(m1) && !m1.servs[s].throttle by { UnthrottleKeeps(m, s); }
    StopEndCloses(m, s);
    var m' := StopEnd(m, s).value;
    assert NoReference(m', s) by { ClosedHasNoReference(m1, m', s); }
    FreeKeeps(m1, m', s);
  }

  lemma StopEndCloses(m: Master, s: int)
    requires s in m.servs && m.servs[s].listenFd >= 0
    ensures Unthrottle(m, s).Fine? && StopEnd(m, s).Fine? && s in Unthrottle(m, s).value.servs
    ensures Closed(Unthrottle(m, s).value, StopEnd(m, s).value, s)
  {
    UnthrottleShape(m, s);
  }

  lemma UnthrottleShape(m: Master, s: int)
    requires s in m.servs && m.servs[s].listenFd >= 0
    ensures Unthrottle(m, s).Fine?
    ensures var m' := Unthrottle(m, s).value;
      && m'.table == m.table && m'.servs.Keys == m.servs.Keys
      && m'.servs[s] == m.servs[s].(throttle := false, listen := m'.servs[s].listen)
      && (forall fd :: fd != m.servs[s].listenFd ==> (fd in m'.reg <==> fd in m.reg))
  {}

  /** What is left of the service: unthrottled, not listening, its socket closed. */
  lemma StopEndShape(m: Master, s: int)
    requires s in m.servs && m.servs[s].listenFd >= 0
    ensures StopEnd(m, s).Fine?
    ensures StopEnd(m, s).value.servs
         == m.servs[s := m.servs[s].(throttle := false, listen := false, listenFd := -1)]
  {
    UnthrottleShape(m, s);
  }

  lemma StopEndServs(m: Master, s: int)
    requires s in m.servs && m.servs[s].listenFd >= 0
    ensures StopEnd(m, s).Fine?
    ensures forall t :: t in m.servs && t != s ==>
      t in StopEnd(m, s).value.servs && StopEnd(m, s).value.servs[t] == m.servs[t]
    ensures forall fd :: fd != m.servs[s].listenFd ==> (fd in StopEnd(m, s).value.reg <==> fd in m.reg)
  {
    UnthrottleShape(m, s);
  }

  lemma NoTableReference(m: Master, s: int)
    requires s in m.servs && Accounted(m, s) && m.servs[s].totalProc == 0
    ensures forall p :: p in m.table ==> m.table[p].serv != s
  {
    forall p | p in m.table ensures m.table[p].serv != s {
      assert p !in Kids(m.table, s);
    }
  }

  lemma FreeKeeps(m1: Master, m': Master, s: int)
    requires Inv(m1) && s in m1.servs && NoReference(m', s)
    requires m'.table == m1.table && m'.timers == m1.timers && m'.servs.Keys == m1.servs.Keys && m'.size == m1.size
    requires m'.reg == m1.reg || m'.reg == m1.reg - {m1.servs[s].listenFd}
    requires forall t :: t in m1.servs && t != s ==> m'.servs[t] == m1.servs[t]
    ensures Inv(Free(m', s))
  {
    var f := Free(m', s);
    forall t | t in f.servs ensures ServInv(f, t) { FreeServKeeps(m1, m', s, t); }
    forall fd | fd in f.reg ensures OwnedBy(f, fd, f.reg[fd]) {
      assert OwnedBy(m1, fd, m1.reg[fd]);
    }
  }

  lemma FreeServKeeps(m1: Master, m': Master, s: int, t: int)
    requires Inv(m1) && s in m1.servs && t in m1.servs && t != s
    requires m'.table == m1.table && m'.timers == m1.timers && m'.size == m1.size
    requires t in m'.servs && m'.servs[t] == m1.servs[t]
    requires m'.reg == m1.reg || m'.reg == m1.reg - {m1.servs[s].listenFd}
    ensures ServInv(Free(m', s), t)
  {
    assert ServInv(m1, t);
    assert m1.servs[t].listenFd != m1.servs[s].listenFd && m1.servs[t].statusFd != m1.servs[s].listenFd;
  }

  /** A child that waitpid reports. */
  datatype Death = Death(pid: int, status: int, now: int)

  /** waitpid reports each known child at most once. */
  predicate Reapable(table: map<int, Proc>, ds: seq<Death>) {
    ds == [] || (ds[0].pid in table && Reapable(table - {ds[0].pid}, ds[1..]))
  }

  /** The wait loop of master_delete_children: the children it reaps may belong
      to any service. */
  function ReapAll(m: Master, ds: seq<Death>): Outcome
    decreases |ds|
  {
    if ds == [] then Fine(m)
    else
      var m1 :- Reap(m, ds[0].pid, ds[0].status, ds[0].now);
      ReapAll(m1, ds[1..])
  }

  lemma {:induction false} ReapAllConcat(m: Master, a: seq<Death>, b: seq<Death>)
    requires ReapAll(m, a).Fine?
    ensures ReapAll(m, a + b) == ReapAll(ReapAll(m, a).value, b)
    decreases |a|
  {
    if a == [] {
      assert a + b == b;
    } else {
      assert (a + b)[1..] == a[1..] + b;
      ReapAllConcat(Reap(m, a[0].pid, a[0].status, a[0].now).value, a[1..], b);
    }
  }

  /** The same services, with the same descriptors. */
  ghost predicate SameDescriptors(m: Master, m': Master) {
    && m'.size == m.size && m'.servs.Keys == m.servs.Keys
    && forall t :: t in m.servs ==> SameFds(m.servs[t], m'.servs[t])
  }

  predicate SameFds(a: Serv, b: Serv) { a.statusFd == b.statusFd && a.listenFd == b.listenFd }

  lemma ReapTouches(m: Master, pid: int, status: int, now: int)
    requires Inv(m) && pid in m.table
    ensures Reap(m, pid, status, now).Fine?
    ensures var m' := Reap(m, pid, status, now).value;
      Inv(m') && m'.table == m.table - {pid} && OnlyTouches(m, m', m.table[pid].serv) && SameDescriptors(m, m')
  {
    var s, m1 := m.table[pid].serv, BackedOff(m, pid, status, now);
    ReapKeeps(m, pid, status, now);
    BackOffKeeps(m, pid, status, now);
    DeleteChildTouches(m1, pid);
    TouchedTwice(m, m1, Reap(m, pid, status, now).value, s);
  }

  lemma TouchedTwice(a: Master, b: Master, c: Master, s: int)
    requires OnlyTouches(a, b, s) && OnlyTouches(b, c, s)
    requires b.reg == a.reg && b.table == a.table
    ensures OnlyTouches(a, c, s) && SameDescriptors(a, c)
  {}

  lemma {:induction false} ReapAllKeeps(m: Master, ds: seq<Death>)
    requires Inv(m) && Reapable(m.table, ds)
    ensures ReapAll(m, ds).Fine? && Inv(ReapAll(m, ds).value)
    ensures SameDescriptors(m, ReapAll(m, ds).value)
    decreases |ds|
  {
    if ds == [] {
    } else {
      var m1 := Reap(m, ds[0].pid, ds[0].status, ds[0].now);
      assert m1.Fine? && Inv(m1.value) && m1.value.table == m.table - {ds[0].pid} && SameDescriptors(m, m1.value) by {
        ReapTouches(m, ds[0].pid, ds[0].status, ds[0].now);
      }
      ReapAllKeeps(m1.value, ds[1..]);
      assert ReapAll(m, ds) == ReapAll(m1.value, ds[1..]);
      SameDescriptorsTrans(m, m1.value, ReapAll(m, ds).value);
    }
  }

  lemma SameDescriptorsTrans(a: Master, b: Master, c: Master)
    requires SameDescriptors(a, b) && SameDescriptors(b, c)
    ensures SameDescriptors(a, c)
  {}

  /** master_stop_service while it waits, after the deaths ds. */
  function StopWaiting(m: Master, s: int, now: int, ds: seq<Death>): Outcome
    requires s in m.servs
  {
    var m1 :- StopBegin(m, s, now);
    ReapAll(m1, ds)
  }

  function StopService(m: Master, s: int, now: int, ds: seq<Death>): Outcome
    requires s in m.servs
  {
    var m2 :- StopWaiting(m, s, now, ds);
    if s in m2.servs then StopEnd(m2, s) else Panic
  }

  /** The children reaped are enough for the wait loop to end. */
  predicate LoopEnds(m: Master, s: int, now: int, ds: seq<Death>)
    requires s in m.servs
  {
    var m1 := StopBegin(m, s, now);
    m1.Fine? && var m2 := ReapAll(m1.value, ds);
    m2.Fine? && s in m2.value.servs && m2.value.servs[s].totalProc <= 0
  }

  function Pids(ds: seq<Death>): set<int> {
    set d | d in ds :: d.pid
  }

  lemma {:induction false} ReapAllTable(m: Master, ds: seq<Death>)
    requires Inv(m) && Reapable(m.table, ds)
    ensures ReapAll(m, ds).Fine? && ReapAll(m, ds).value.table == m.table - Pids(ds)
    decreases |ds|
  {
    if ds != [] {
      var d, rest := ds[0], ds[1..];
      var m1 := Reap(m, d.pid, d.status, d.now);
      assert m1.Fine? && Inv(m1.value) && m1.value.table == m.table - {d.pid} by {
        ReapKeeps(m, d.pid, d.status, d.now);
      }
      ReapAllTable(m1.value, rest);
      PidsFirst(ds);
      DropTwice(m.table, d.pid, Pids(rest));
    }
  }

  lemma PidsFirst(ds: seq<Death>)
    requires ds != []
    ensures Pids(ds) == {ds[0].pid} + Pids(ds[1..])
  {
    assert ds == [ds[0]] + ds[1..];
  }

  lemma DropTwice(table: map<int, Proc>, p: int, ps: set<int>)
    ensures table - {p} - ps == table - ({p} + ps)
  {}

  lemma KidsLeft(table: map<int, Proc>, s: int, ps: set<int>)
    ensures Kids(table - ps, s) == Kids(table, s) - ps
    ensures |Kids(table - ps, s)| == 0 <==> Kids(table, s) <= ps
  {
    assert Kids(table - ps, s) == Kids(table, s) - ps;
    var k := Kids(table, s);
    if k - ps == {} {
      forall p | p in k ensures p in ps { assert p !in k - ps; }
    }
  }

  /** The wait loop of a stop ends exactly when every child of the service has
      been reaped, whatever other children were reaped with them. */
  lemma LoopEndsExact(m: Master, s: int, now: int, ds: seq<Death>)
    requires Inv(m) && s in m.servs && m.servs[s].statusFd >= 0 && Reapable(m.table, ds)
    ensures LoopEnds(m, s, now, ds) <==> Kids(m.table, s) <= Pids(ds)
  {
    var m1 := StopBegin(m, s, now).value;
    assert Inv(m1) && m1.table == m.table && m1.servs.Keys == m.servs.Keys && StopBegin(m, s, now).Fine? by {
      StopBeginKeeps(m, s, now);
    }
    var o := ReapAll(m1, ds);
    assert o.Fine? && o.value.table == m.table - Pids(ds) by { ReapAllTable(m1, ds); }
    var m2 := o.value;
    assert Inv(m2) && m2.servs.Keys == m1.servs.Keys by { ReapAllKeeps(m1, ds); }
    assert m2.servs[s].totalProc == |Kids(m2.table, s)| by { assert ServInv(m2, s); }
    KidsLeft(m.table, s, Pids(ds));
  }

  /** After master_stop_service, which ends once all children of the service have
      been reaped, nothing refers to the service, so freeing it is safe; all
      other services keep their invariant. */
  lemma StopLeavesNoReference(m: Master, s: int, now: int, ds: seq<Death>)
    requires Inv(m) && s in m.servs && m.servs[s].statusFd >= 0 && Reapable(m.table, ds)
    requires Kids(m.table, s) <= Pids(ds)
    ensures LoopEnds(m, s, now, ds) && StopService(m, s, now, ds).Fine?
    ensures var m' := StopService(m, s, now, ds).value;
      NoReference(m', s) && Inv(Free(m', s)) && Free(m', s).servs.Keys == m.servs.Keys - {s}
  {
    LoopEndsExact(m, s, now, ds);
    StopBeginKeeps(m, s, now);
    var m1 := StopBegin(m, s, now).value;
    ReapAllKeeps(m1, ds);
    assert ServInv(ReapAll(m1, ds).value, s);
    StopEndClean(ReapAll(m1, ds).value, s);
  }

  // ---------------------------------------------------------------------
  // Who watches the listen socket

  /** The registration agrees with the LISTEN flag. */
  predicate Attentive(m: Master, s: int)
    requires s in m.servs
  {
    Watched(m, s) <==> m.servs[s].listen
  }

  /** What master_avail_event does to the agreement: it ends it for a throttled
      service that has LISTEN set, and restores it when it forks. */
  lemma ConnectionAttentiveExact(m: Master, s: int, fork: Fork, now: int)
    requires Inv(m) && s in m.servs && !SpawnPanics(m.servs[s]) && (fork.Child? ==> fork.pid !in m.table)
    ensures ConnectionEvent(m, s, fork, now).Fine?
    ensures var m' := ConnectionEvent(m, s, fork, now).value;
      && s in m'.servs
      && (Attentive(m', s) <==> if m.servs[s].throttle then !m.servs[s].listen else fork.Child? || Attentive(m, s))
  {
    ConnectionKeeps(m, s, fork, now);
    assert ServInv(m, s);
    if !m.servs[s].throttle && fork.Child? {
      SpawnResult(m, s, fork.pid, now);
    }
  }

  /** A service that nothing but master_avail_event touches stays attentive. */
  lemma OthersAttentive(m: Master, m': Master, s: int, t: int)
    requires Inv(m) && OnlyTouches(m, m', s) && t in m.servs && t != s
    ensures Attentive(m, t) <==> Attentive(m', t)
  {
    assert m.servs[t].listenFd != m.servs[s].listenFd;
  }

  // ---------------------------------------------------------------------
  // A configuration reload

  /** The new limit admits the children that exist, keeps room where LISTEN is
      set and does not make room where it is not: master_config does not decide
      again who listens. */
  predicate ReloadFits(sv: Serv, maxProc: int) {
    && (maxProc == 0 || sv.totalProc <= maxProc)
    && (sv.listen ==> LimitOk(maxProc, sv.totalProc))
    && (!sv.throttle && sv.availProc == 0 && !sv.listen ==> !LimitOk(maxProc, sv.totalProc))
  }

  /** Any reload keeps the invariant; it keeps the limit's part of it exactly when
      the new limit fits. */
  lemma ReconfigureExact(m: Master, s: int, maxProc: nat, delay: nat, condwake: bool, sfd: int)
    requires Inv(m) && s in m.servs && m.servs[s].statusFd >= 0 && FreeFor(m, s, sfd)
    ensures Reconfigure(m, s, maxProc, delay, condwake, sfd).Fine?
    ensures var m' := Reconfigure(m, s, maxProc, delay, condwake, sfd).value;
      Inv(m') && s in m'.servs && (Fitted(m'.servs[s]) <==> ReloadFits(m.servs[s], maxProc))
  {
    ReconfigureShape(m, s, maxProc, delay, condwake, sfd);
    var m' := Reconfigure(m, s, maxProc, delay, condwake, sfd).value;
    ReconfiguredOthers(m, m', s, sfd);
    ReconfiguredOwned(m, m', s, sfd);
    assert ServInv(m, s);
    assert m.servs[s].listenFd != m.servs[s].statusFd;
    assert ServInv(m', s);
  }

  lemma ReconfigureShape(m: Master, s: int, maxProc: nat, delay: nat, condwake: bool, sfd: int)
    requires s in m.servs && m.servs[s].statusFd >= 0 && sfd >= 0
    ensures Reconfigure(m, s, maxProc, delay, condwake, sfd).Fine?
    ensures var m', sv := Reconfigure(m, s, maxProc, delay, condwake, sfd).value, m.servs[s];
      && m'.servs == m.servs[s :=
           sv.(condwake := condwake, maxProc := maxProc, throttleDelay := delay, statusFd := sfd)]
      && m'.reg == Registered(m.reg - {sv.statusFd}, sfd, StatusEvent(s), m.size)
      && m'.table == m.table && m'.timers == m.timers && m'.size == m.size
  {}

  lemma ReconfiguredOthers(m: Master, m': Master, s: int, sfd: int)
    requires Inv(m) && s in m.servs && m.servs[s].statusFd >= 0 && FreeFor(m, s, sfd)
    requires m'.servs.Keys == m.servs.Keys && m'.table == m.table && m'.timers == m.timers && m'.size == m.size
    requires forall t :: t in m.servs && t != s ==> m'.servs[t] == m.servs[t]
    requires m'.reg == Registered(m.reg - {m.servs[s].statusFd}, sfd, StatusEvent(s), m.size)
    ensures forall t :: t in m.servs && t != s ==> ServInv(m', t)
  {
    forall t | t in m.servs && t != s ensures ServInv(m', t) {
      assert ServInv(m, t);
      assert m.servs[t].listenFd != m.servs[s].statusFd && m.servs[t].statusFd != m.servs[s].statusFd;
    }
  }

  lemma ReconfiguredOwned(m: Master, m': Master, s: int, sfd: int)
    requires Inv(m) && s in m.servs && m.servs[s].statusFd >= 0 && FreeFor(m, s, sfd)
    requires m'.servs.Keys == m.servs.Keys && m'.servs[s].listenFd == m.servs[s].listenFd && m'.size == m.size
    requires forall t :: t in m.servs && t != s ==> m'.servs[t] == m.servs[t]
    requires m'.servs[s].statusFd == sfd
    requires m'.reg == Registered(m.reg - {m.servs[s].statusFd}, sfd, StatusEvent(s), m.size)
    ensures DescriptorsOwned(m')
  {
    forall fd | fd in m'.reg ensures 0 <= fd < m'.size && OwnedBy(m', fd, m'.reg[fd]) {
      if fd != sfd { assert OwnedBy(m, fd, m.reg[fd]); }
    }
  }

  /** With a watched, unthrottled service, the next connection after a reload
      ends the manager exactly when the new limit is already used up. */
  lemma ReloadPanicExact(m: Master, s: int, maxProc: nat, delay: nat, condwake: bool, sfd: int, fork: Fork, now: int)
    requires Inv(m) && s in m.servs && m.servs[s].statusFd >= 0 && FreeFor(m, s, sfd)
    requires Watched(m, s) && !m.servs[s].throttle && (fork.Child? ==> fork.pid !in m.table)
    ensures var m' := Reconfigure(m, s, maxProc, delay, condwake, sfd);
      m'.Fine? && s in m'.value.servs && Watched(m'.value, s)
      && (ConnectionEvent(m'.value, s, fork, now).Panic? <==> !LimitOk(maxProc, m.servs[s].totalProc))
  {
    assert ServInv(m, s);
    var m' := Reconfigure(m, s, maxProc, delay, condwake, sfd).value;
    assert m.servs[s].listenFd != m.servs[s].statusFd;
    if fork.Child? {
      var sv := m'.servs[s];
      var m1 := Put(m', s, sv.(totalProc := sv.totalProc + 1)).(table := m'.table[fork.pid := Proc(s, STAT_TAKEN, 0)]);
      ListenSettles(Put(m1, s, m1.servs[s].(availProc := m1.servs[s].availProc + 1))
                    .(table := m1.table[fork.pid := Proc(s, STAT_AVAIL, 0)]), s);
    }
  }
}
