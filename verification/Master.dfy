/** The process manager's own state and its event handlers
    (src/master/master_spawn.c, master_avail.c, master_status.c and
    master_service.c) as functions on values, with the invariant they keep. */
module Master {
  import opened Timers

  const STAT_TAKEN := 0
  const STAT_AVAIL := 1

  /** Tags the callback master_unthrottle_wrapper in a timer key. */
  const UNTHROTTLE := 1

  function UnthrottleKey(s: int): TimerKey { TimerKey(UNTHROTTLE, s) }

  /** MASTER_SERV: the flag word is one field per bit; a closed descriptor is -1. */
  datatype Serv = Serv(
    throttle: bool, listen: bool, condwake: bool,
    maxProc: int, availProc: int, totalProc: int, throttleDelay: nat,
    listenFd: int, statusFd: int)

  /** MASTER_PROC */
  datatype Proc = Proc(serv: int, avail: int, useCount: int)

  /** The callback and context registered for a descriptor's read event. */
  datatype Handler = AvailEvent(serv: int) | StatusEvent(serv: int)

  datatype Master = Master(
    servs: map<int, Serv>,      // the services, by identity
    table: map<int, Proc>,      // master_child_table, by process id
    timers: TimerState,
    reg: map<int, Handler>,     // descriptors registered for reading
    size: nat)                  // of the registration table

  /** msg_panic and msg_fatal end the process. */
  datatype Outcome = Fine(value: Master) | Panic {
    predicate IsFailure() { Panic? }
    function PropagateFailure(): Outcome requires Panic? { Panic }
    function Extract(): Master requires Fine? { value }
  }

  /** What fork returns in the parent. */
  datatype Fork = Failed | Child(pid: int)

  predicate LimitOk(limit: int, count: int) { limit == 0 || count < limit }

  function Put(m: Master, s: int, sv: Serv): Master { m.(servs := m.servs[s := sv]) }

  /** reg after event_enable_rw, which refuses descriptors beyond the table. */
  function Registered(reg: map<int, Handler>, fd: int, h: Handler, size: nat): map<int, Handler> {
    if fd < size then reg[fd := h] else reg
  }

  /** The result of event_enable_rw is not looked at. */
  function EnableRead(m: Master, fd: int, h: Handler): Outcome {
    if fd < 0 then Panic else Fine(m.(reg := Registered(m.reg, fd, h, m.size)))
  }

  function DisableRead(m: Master, fd: int): Outcome {
    if fd < 0 then Panic else Fine(m.(reg := m.reg - {fd}))
  }

  // ---------------------------------------------------------------------
  // master_avail.c

  predicate Wanted(sv: Serv) {
    !(sv.throttle || sv.availProc > 0) && LimitOk(sv.maxProc, sv.totalProc)
  }

  function AvailListen(m: Master, s: int): Outcome
    requires s in m.servs
  {
    var sv := m.servs[s];
    if Wanted(sv) && !sv.listen then
      var m1 :- EnableRead(m, sv.listenFd, AvailEvent(s));
      Fine(Put(m1, s, sv.(listen := true)))
    else if !Wanted(sv) && sv.listen then
      var m1 :- DisableRead(m, sv.listenFd);
      Fine(Put(m1, s, sv.(listen := false)))
    else Fine(m)
  }

  function AvailMore(m: Master, s: int, pid: int): Outcome
    requires s in m.servs && pid in m.table
  {
    var sv, p := m.servs[s], m.table[pid];
    if p.avail == STAT_AVAIL then Panic
    else
      AvailListen(Put(m, s, sv.(availProc := sv.availProc + 1))
                  .(table := m.table[pid := p.(avail := STAT_AVAIL)]), s)
  }

  function AvailLess(m: Master, s: int, pid: int): Outcome
    requires s in m.servs && pid in m.table
  {
    var sv, p := m.servs[s], m.table[pid];
    if p.avail != STAT_AVAIL then Panic
    else
      AvailListen(Put(m, s, sv.(availProc := sv.availProc - 1))
                  .(table := m.table[pid := p.(avail := STAT_TAKEN)]), s)
  }

  /** master_avail_event */
  function ConnectionEvent(m: Master, s: int, fork: Fork, now: int): Outcome
    requires s in m.servs
  {
    if m.servs[s].throttle then DisableRead(m, m.servs[s].listenFd)
    else Spawn(m, s, fork, now)
  }

  // ---------------------------------------------------------------------
  // master_spawn.c

  function Throttle(m: Master, s: int, now: int): Master
    requires s in m.servs
  {
    var sv := m.servs[s];
    if sv.throttle then m
    else Put(m, s, sv.(throttle := true))
         .(timers := Request(m.timers, UnthrottleKey(s), sv.throttleDelay, now))
  }

  function Unthrottle(m: Master, s: int): Outcome
    requires s in m.servs
  {
    var sv := m.servs[s];
    if !sv.throttle then Fine(m)
    else AvailListen(Put(m, s, sv.(throttle := false))
                     .(timers := Cancel(m.timers, UnthrottleKey(s))), s)
  }

  function Spawn(m: Master, s: int, fork: Fork, now: int): Outcome
    requires s in m.servs
  {
    var sv := m.servs[s];
    if !LimitOk(sv.maxProc, sv.totalProc) || sv.availProc > 0 || sv.throttle then Panic
    else match fork
      case Failed => Fine(Throttle(m, s, now))
      case Child(pid) => Adopt(m, s, pid)
  }

  /** The new child is entered into the table and counted. */
  function Entered(m: Master, s: int, pid: int): Master
    requires s in m.servs
  {
    Put(m, s, m.servs[s].(totalProc := m.servs[s].totalProc + 1))
    .(table := m.table[pid := Proc(s, STAT_TAKEN, 0)])
  }

  /** The branch of master_spawn that runs in the parent. */
  function Adopt(m: Master, s: int, pid: int): Outcome
    requires s in m.servs
  {
    var m2 :- AvailMore(Entered(m, s, pid), s, pid);
    Fine(if s in m2.servs then Put(m2, s, m2.servs[s].(condwake := false)) else m2)
  }

  /** master_delete_child, up to the removal from the table. */
  function Uncount(m: Master, pid: int): Outcome
    requires pid in m.table && m.table[pid].serv in m.servs
  {
    var p := m.table[pid];
    var sv := m.servs[p.serv].(totalProc := m.servs[p.serv].totalProc - 1);
    var m1 := Put(m, p.serv, sv);
    if p.avail == STAT_AVAIL then AvailLess(m1, p.serv, pid)
    else if LimitOk(sv.maxProc, sv.totalProc) && sv.availProc < 1 then AvailListen(m1, p.serv)
    else Fine(m1)
  }

  function DeleteChild(m: Master, pid: int): Outcome
    requires pid in m.table && m.table[pid].serv in m.servs
  {
    var m1 :- Uncount(m, pid);
    Fine(m1.(table := m1.table - {pid}))
  }

  /** One round of the loop in master_reap_child: waitpid returned `pid`. An entry
      that points to a freed service counts as a crash. */
  function Reap(m: Master, pid: int, status: int, now: int): Outcome {
    if pid !in m.table || m.table[pid].serv !in m.servs then Panic
    else DeleteChild(BackedOff(m, pid, status, now), pid)
  }

  /** The timer loop of event_wait takes the first entry off the queue, and then
      calls master_unthrottle_wrapper; its context must not have been freed. */
  function TimerEvent(m: Master): Outcome
    requires m.timers.queue != []
  {
    var m1 := m.(timers := m.timers.(queue := m.timers.queue[1..]));
    var s := m.timers.queue[0].key.context;
    if s in m.servs then Unthrottle(m1, s) else Panic
  }

  // ---------------------------------------------------------------------
  // master_status.c

  /** master_status_event, after a complete message has been read. */
  function StatusMessage(m: Master, s: int, pid: int, avail: int): Outcome
    requires s in m.servs
  {
    if pid !in m.table then Fine(m)
    else
      var p := m.table[pid];
      if p.serv != s then Panic
      else if p.avail == avail then Fine(m)
      else if avail == STAT_AVAIL then
        AvailMore(m.(table := m.table[pid := p.(useCount := p.useCount + 1)]), s, pid)
      else if avail == STAT_TAKEN then AvailLess(m, s, pid)
      else Fine(m)
  }

  function StatusInit(m: Master, s: int, fd: int): Outcome
    requires s in m.servs
  {
    var sv := m.servs[s];
    if sv.statusFd >= 0 then Panic
    else EnableRead(Put(m, s, sv.(statusFd := fd)), fd, StatusEvent(s))
  }

  function StatusCleanup(m: Master, s: int): Outcome
    requires s in m.servs
  {
    var sv := m.servs[s];
    if sv.statusFd < 0 then Panic
    else
      var m1 :- DisableRead(m, sv.statusFd);
      Fine(Put(m1, s, sv.(statusFd := -1)))
  }

  // ---------------------------------------------------------------------
  // master_service.c and the update branch of master_config

  /** A service as read from the configuration. */
  function Fresh(maxProc: int, delay: nat, condwake: bool): Serv {
    Serv(false, false, condwake, maxProc, 0, 0, delay, -1, -1)
  }

  /** master_start_service; the listen socket and the status pipe are opened as
      `lfd` and `sfd`. */
  function StartService(m: Master, s: int, sv: Serv, lfd: int, sfd: int): Outcome {
    var m1 := Put(m, s, sv.(listenFd := lfd));
    var m2 :- AvailListen(m1, s);
    if s in m2.servs then StatusInit(m2, s, sfd) else Panic
  }

  /** master_stop_service up to the loop that waits for the children. */
  function StopBegin(m: Master, s: int, now: int): Outcome
    requires s in m.servs
  {
    var m1 :- StatusCleanup(m, s);
    Fine(if s in m1.servs then Throttle(m1, s, now) else m1)
  }

  /** The rest of master_stop_service. */
  function StopEnd(m: Master, s: int): Outcome
    requires s in m.servs
  {
    var m1 :- Unthrottle(m, s);
    if s !in m1.servs then Panic else
    var sv := m1.servs[s];
    var m2 :- if sv.listen then DisableRead(m1, sv.listenFd) else Fine(m1);
    Fine(Put(m2, s, sv.(listen := false, listenFd := -1)))
  }

  /** master_config on a service that is already known. */
  function Reconfigure(m: Master, s: int, maxProc: int, delay: nat, condwake: bool, sfd: int): Outcome
    requires s in m.servs
  {
    var m1 := Put(m, s, m.servs[s].(condwake := condwake, maxProc := maxProc, throttleDelay := delay));
    var m2 :- StatusCleanup(m1, s);
    if s in m2.servs then StatusInit(m2, s, sfd) else Panic
  }

  // ---------------------------------------------------------------------
  // The invariant

  function Kids(table: map<int, Proc>, s: int): set<int> {
    set p | p in table && table[p].serv == s
  }

  function IdleKids(table: map<int, Proc>, s: int): set<int> {
    set p | p in table && table[p].serv == s && table[p].avail == STAT_AVAIL
  }

  predicate Watched(m: Master, s: int)
    requires s in m.servs
  {
    m.servs[s].listenFd in m.reg
  }

  /** The counters are the table's counts. */
  ghost predicate Accounted(m: Master, s: int)
    requires s in m.servs
  {
    && m.servs[s].totalProc == |Kids(m.table, s)|
    && m.servs[s].availProc == |IdleKids(m.table, s)|
  }

  /** registered ==> LISTEN ==> no idle child */
  predicate Listens(m: Master, s: int)
    requires s in m.servs
  {
    && (Watched(m, s) ==> m.servs[s].listen)
    && (m.servs[s].listen ==> m.servs[s].availProc == 0)
  }

  predicate WithinLimit(sv: Serv) {
    sv.maxProc >= 0 && (sv.maxProc == 0 || sv.totalProc <= sv.maxProc)
  }

  /** The part of the invariant that speaks of the limit, which a reload can end:
      LISTEN leaves room for another child, and is set whenever one is wanted. */
  predicate Fitted(sv: Serv) {
    && WithinLimit(sv)
    && (sv.listen ==> LimitOk(sv.maxProc, sv.totalProc))
    && (Wanted(sv) ==> sv.listen)
  }

  /** A service is throttled exactly when its one timer is queued. */
  ghost predicate TimerAgrees(m: Master, s: int)
    requires s in m.servs
  {
    m.servs[s].throttle <==> HasKey(m.timers.queue, UnthrottleKey(s))
  }

  ghost predicate ServInv(m: Master, s: int)
    requires s in m.servs
  {
    var sv := m.servs[s];
    && Accounted(m, s) && Listens(m, s) && TimerAgrees(m, s)
    && sv.listenFd >= 0
    && (0 <= sv.statusFd < m.size ==> sv.statusFd in m.reg)
  }

  predicate OwnedBy(m: Master, fd: int, h: Handler) {
    match h
    case AvailEvent(s) => s in m.servs && m.servs[s].listenFd == fd
    case StatusEvent(s) => s in m.servs && m.servs[s].statusFd == fd
  }

  ghost predicate DescriptorsOwned(m: Master) {
    && (forall fd :: fd in m.reg ==> 0 <= fd < m.size && OwnedBy(m, fd, m.reg[fd]))
    && (forall s, t :: s in m.servs && t in m.servs ==>
          && m.servs[s].listenFd != m.servs[t].statusFd
          && (s != t ==> m.servs[s].listenFd != m.servs[t].listenFd)
          && (s != t && m.servs[s].statusFd >= 0 ==> m.servs[s].statusFd != m.servs[t].statusFd))
  }

  ghost predicate TableOwned(m: Master) {
    forall p :: p in m.table ==> m.table[p].serv in m.servs && m.table[p].avail in {STAT_TAKEN, STAT_AVAIL}
  }

  ghost predicate TimersOwned(m: Master) {
    && Valid(m.timers)
    && forall t :: t in m.timers.queue ==> t.key.context in m.servs && t.key == UnthrottleKey(t.key.context)
  }

  ghost predicate Inv(m: Master) {
    && DescriptorsOwned(m) && TableOwned(m) && TimersOwned(m)
    && forall s :: s in m.servs ==> ServInv(m, s)
  }

  // ---------------------------------------------------------------------
  // What a handler of one service leaves alone

  /** m' differs from m only in what belongs to service s, whose descriptors stay. */
  ghost predicate OnlyTouches(m: Master, m': Master, s: int) {
    && m'.servs.Keys == m.servs.Keys && s in m.servs
    && (forall t :: t in m.servs && t != s ==> m'.servs[t] == m.servs[t])
    && m'.servs[s].listenFd == m.servs[s].listenFd && m'.servs[s].statusFd == m.servs[s].statusFd
    && (forall p :: p in m.table && m.table[p].serv != s ==> p in m'.table && m'.table[p] == m.table[p])
    && (forall p :: p in m'.table && m'.table[p].serv != s ==> p in m.table && m'.table[p] == m.table[p])
    && (forall p :: p in m'.table && m'.table[p].serv == s ==> m'.table[p].avail in {STAT_TAKEN, STAT_AVAIL})
    && Valid(m'.timers)
    && (forall t :: t in m'.timers.queue ==> t in m.timers.queue || t.key == UnthrottleKey(s))
    && (forall t :: t in m.timers.queue ==> t in m'.timers.queue || t.key == UnthrottleKey(s))
    && m'.size == m.size
    && (m'.reg == m.reg || m'.reg == m.reg - {m.servs[s].listenFd}
        || m'.reg == Registered(m.reg, m.servs[s].listenFd, AvailEvent(s), m.size))
  }

  lemma TouchesNothing(m: Master, s: int)
    requires Inv(m) && s in m.servs
    ensures OnlyTouches(m, m, s)
  {}

  /** The services whose handler did not run keep their invariant. */
  lemma OthersKeep(m: Master, m': Master, s: int)
    requires Inv(m) && OnlyTouches(m, m', s)
    ensures forall t :: t in m.servs && t != s ==> ServInv(m', t)
  {
    forall t | t in m.servs && t != s ensures ServInv(m', t) {
      assert ServInv(m, t);
      SameKids(m.table, m'.table, s, t);
      assert m.servs[t].listenFd != m.servs[s].listenFd;
      assert m.servs[t].statusFd != m.servs[s].listenFd;
      SameKey(m.timers.queue, m'.timers.queue, s, t);
    }
  }

  lemma SameKids(a: map<int, Proc>, b: map<int, Proc>, s: int, t: int)
    requires s != t
    requires forall p :: p in a && a[p].serv != s ==> p in b && b[p] == a[p]
    requires forall p :: p in b && b[p].serv != s ==> p in a && b[p] == a[p]
    ensures Kids(a, t) == Kids(b, t) && IdleKids(a, t) == IdleKids(b, t)
  {
    forall p ensures p in Kids(a, t) <==> p in Kids(b, t) {}
    forall p ensures p in IdleKids(a, t) <==> p in IdleKids(b, t) {}
  }

  lemma SameKey(q: Queue, q': Queue, s: int, t: int)
    requires s != t
    requires forall u :: u in q' ==> u in q || u.key == UnthrottleKey(s)
    requires forall u :: u in q ==> u in q' || u.key == UnthrottleKey(s)
    ensures HasKey(q, UnthrottleKey(t)) <==> HasKey(q', UnthrottleKey(t))
  {
    if HasKey(q, UnthrottleKey(t)) {
      var i :| 0 <= i < |q| && q[i].key == UnthrottleKey(t);
      assert q[i] in q';
    }
    if HasKey(q', UnthrottleKey(t)) {
      var i :| 0 <= i < |q'| && q'[i].key == UnthrottleKey(t);
      assert q'[i] in q;
    }
  }

  /** The invariant follows from the part of the service that was touched. */
  lemma InvFromTouched(m: Master, m': Master, s: int)
    requires Inv(m) && OnlyTouches(m, m', s) && ServInv(m', s)
    ensures Inv(m')
  {
    OthersKeep(m, m', s);
    assert ServInv(m, s);
    assert forall t :: t in m.servs ==>
      m'.servs[t].listenFd == m.servs[t].listenFd && m'.servs[t].statusFd == m.servs[t].statusFd;
  }

  // ---------------------------------------------------------------------
  // Each handler keeps the invariant and does not panic

  /** master_avail_listen settles LISTEN on what is wanted, touching nothing else;
      the registration follows only when LISTEN changes. */
  lemma ListenSettles(m: Master, s: int)
    requires s in m.servs && m.servs[s].listenFd >= 0
    ensures AvailListen(m, s).Fine?
    ensures var m' := AvailListen(m, s).value;
      && m'.servs == m.servs[s := m.servs[s].(listen := Wanted(m.servs[s]))]
      && m'.table == m.table && m'.timers == m.timers && m'.size == m.size
      && (Watched(m, s) && m.servs[s].listen && Wanted(m.servs[s]) ==> Watched(m', s))
      && (!m.servs[s].listen && Wanted(m.servs[s]) && m.servs[s].listenFd < m.size ==> Watched(m', s))
      && ((Watched(m, s) ==> m.servs[s].listen) ==> (Watched(m', s) ==> m'.servs[s].listen))
      && (m'.reg == m.reg || m'.reg == m.reg - {m.servs[s].listenFd}
          || m'.reg == Registered(m.reg, m.servs[s].listenFd, AvailEvent(s), m.size))
  {
    assert m.servs == m.servs[s := m.servs[s]];
  }

  /** The table after a connection event: a new child when one was forked. */
  function TableAfter(m: Master, s: int, fork: Fork): map<int, Proc>
    requires s in m.servs
  {
    if fork.Child? && !m.servs[s].throttle then m.table[fork.pid := Proc(s, STAT_AVAIL, 0)] else m.table
  }

  /** The panic tests of master_spawn, as master_avail_event comes to them. */
  predicate SpawnPanics(sv: Serv) {
    !sv.throttle && (sv.availProc > 0 || !LimitOk(sv.maxProc, sv.totalProc))
  }

  /** A connection event, watched for or left over from before, ends the manager
      exactly when there is an idle child or no room for another one. */
  lemma ConnectionKeeps(m: Master, s: int, fork: Fork, now: int)
    requires Inv(m) && s in m.servs
    requires fork.Child? ==> fork.pid !in m.table
    ensures ConnectionEvent(m, s, fork, now).Panic? <==> SpawnPanics(m.servs[s])
    ensures ConnectionEvent(m, s, fork, now).Fine? ==>
      var m' := ConnectionEvent(m, s, fork, now).value;
      Inv(m') && OnlyTouches(m, m', s) && m'.table == TableAfter(m, s, fork)
  {
    assert m.servs[s].listenFd >= 0 by { assert ServInv(m, s); }
    if m.servs[s].throttle {
      ThrottledConnectionKeeps(m, s, fork, now);
    } else if !SpawnPanics(m.servs[s]) {
      match fork
      case Failed =>
        ThrottleKeeps(m, s, now);
      case Child(pid) =>
        SpawnKeeps(m, s, pid, now);
        SpawnTouches(m, s, pid, now);
    }
  }

  lemma ThrottledConnectionKeeps(m: Master, s: int, fork: Fork, now: int)
    requires Inv(m) && s in m.servs && m.servs[s].throttle
    ensures var o := ConnectionEvent(m, s, fork, now);
      o.Fine? && Inv(o.value) && OnlyTouches(m, o.value, s) && o.value.table == m.table
  {
    assert ServInv(m, s);
    InvFromTouched(m, ConnectionEvent(m, s, fork, now).value, s);
  }

  /** While the socket is watched and the limit respected, no panic test of
      master_spawn fires. */
  lemma WatchedNeverPanics(m: Master, s: int)
    requires Inv(m) && s in m.servs && Watched(m, s) && Fitted(m.servs[s])
    ensures !SpawnPanics(m.servs[s])
  {
    assert ServInv(m, s);
  }

  lemma ThrottleKeeps(m: Master, s: int, now: int)
    requires Inv(m) && s in m.servs
    ensures Inv(Throttle(m, s, now)) && OnlyTouches(m, Throttle(m, s, now), s)
  {
    assert ServInv(m, s);
    var m' := Throttle(m, s, now);
    if !m.servs[s].throttle {
      RequestExact(m.timers, UnthrottleKey(s), m.servs[s].throttleDelay, now);
      assert OnlyTouches(m, m', s);
      assert m'.table == m.table;
      assert ServInv(m', s);
    }
    InvFromTouched(m, m', s);
  }

  lemma UnthrottleKeeps(m: Master, s: int)
    requires Inv(m) && s in m.servs
    ensures Unthrottle(m, s).Fine?
    ensures Inv(Unthrottle(m, s).value) && OnlyTouches(m, Unthrottle(m, s).value, s)
    ensures !Unthrottle(m, s).value.servs[s].throttle
  {
    assert ServInv(m, s);
    if m.servs[s].throttle {
      CancelExact(m.timers, UnthrottleKey(s));
      var m1 := Put(m, s, m.servs[s].(throttle := false)).(timers := Cancel(m.timers, UnthrottleKey(s)));
      ListenSettles(m1, s);
      var m' := Unthrottle(m, s).value;
      assert OnlyTouches(m, m', s);
      assert ServInv(m', s);
      InvFromTouched(m, m', s);
    }
  }

  /** The state Spawn reaches before it calls master_avail_listen. */
  function Spawned(m: Master, s: int, pid: int): Master
    requires s in m.servs
  {
    var sv := m.servs[s];
    Put(m, s, sv.(totalProc := sv.totalProc + 1, availProc := sv.availProc + 1))
    .(table := m.table[pid := Proc(s, STAT_AVAIL, 0)])
  }

  lemma SpawnResult(m: Master, s: int, pid: int, now: int)
    requires s in m.servs && m.servs[s].listenFd >= 0
    requires LimitOk(m.servs[s].maxProc, m.servs[s].totalProc) && m.servs[s].availProc <= 0 && !m.servs[s].throttle
    ensures AvailListen(Spawned(m, s, pid), s).Fine?
    ensures var b := AvailListen(Spawned(m, s, pid), s).value;
      s in b.servs && Spawn(m, s, Child(pid), now) == Fine(Put(b, s, b.servs[s].(condwake := false)))
  {
    var sv, m2 := m.servs[s], Spawned(m, s, pid);
    ListenSettles(m2, s);
    assert m.table[pid := Proc(s, STAT_TAKEN, 0)][pid := Proc(s, STAT_AVAIL, 0)] == m2.table;
    assert m.servs[s := sv.(totalProc := sv.totalProc + 1)][s := m2.servs[s]] == m2.servs;
  }

  lemma SpawnTouches(m: Master, s: int, pid: int, now: int)
    requires Inv(m) && s in m.servs && !SpawnPanics(m.servs[s]) && !m.servs[s].throttle && pid !in m.table
    ensures Spawn(m, s, Child(pid), now).Fine?
    ensures var m' := Spawn(m, s, Child(pid), now).value;
      OnlyTouches(m, m', s) && m'.table == m.table[pid := Proc(s, STAT_AVAIL, 0)]
  {
    assert ServInv(m, s);
    SpawnResult(m, s, pid, now);
    ListenSettles(Spawned(m, s, pid), s);
  }

  lemma SpawnKeeps(m: Master, s: int, pid: int, now: int)
    requires Inv(m) && s in m.servs && !SpawnPanics(m.servs[s]) && !m.servs[s].throttle && pid !in m.table
    ensures Spawn(m, s, Child(pid), now).Fine?
    ensures Inv(Spawn(m, s, Child(pid), now).value)
  {
    assert ServInv(m, s);
    SpawnTouches(m, s, pid, now);
    SpawnResult(m, s, pid, now);
    ListenSettles(Spawned(m, s, pid), s);
    var m' := Spawn(m, s, Child(pid), now).value;
    assert Kids(m'.table, s) == Kids(m.table, s) + {pid};
    assert IdleKids(m'.table, s) == IdleKids(m.table, s) + {pid};
    assert ServInv(m', s);
    InvFromTouched(m, m', s);
  }

  /** The status of one known child changes, and the counter with it. */
  function Move(m: Master, s: int, pid: int, p: Proc): Master
    requires s in m.servs
  {
    var d := if p.avail == STAT_AVAIL then 1 else -1;
    Put(m, s, m.servs[s].(availProc := m.servs[s].availProc + d)).(table := m.table[pid := p])
  }

  lemma MoveKeeps(m: Master, s: int, pid: int, p: Proc)
    requires Inv(m) && s in m.servs && pid in m.table && m.table[pid].serv == s
    requires p.serv == s && p.avail in {STAT_TAKEN, STAT_AVAIL} && p.avail != m.table[pid].avail
    ensures AvailListen(Move(m, s, pid, p), s).Fine?
    ensures var m' := AvailListen(Move(m, s, pid, p), s).value;
      Inv(m') && OnlyTouches(m, m', s) && m'.table == m.table[pid := p]
  {
    assert ServInv(m, s);
    ListenSettles(Move(m, s, pid, p), s);
    var m' := AvailListen(Move(m, s, pid, p), s).value;
    assert m'.table == m.table[pid := p];
    assert Kids(m'.table, s) == Kids(m.table, s);
    if p.avail == STAT_AVAIL {
      assert IdleKids(m'.table, s) == IdleKids(m.table, s) + {pid};
    } else {
      assert IdleKids(m'.table, s) == IdleKids(m.table, s) - {pid};
    }
    assert OnlyTouches(m, m', s);
    assert ServInv(m', s);
    InvFromTouched(m, m', s);
  }

  /** The table after a status message: a known child that reports a new status
      has it recorded, and a use counted when it became idle. */
  function Told(table: map<int, Proc>, pid: int, avail: int): map<int, Proc> {
    if pid in table && table[pid].avail != avail && avail in {STAT_TAKEN, STAT_AVAIL} then
      table[pid := table[pid].(avail := avail,
                               useCount := table[pid].useCount + if avail == STAT_AVAIL then 1 else 0)]
    else table
  }

  /** Any message at all: it ends the manager exactly when it names a child of
      another service; otherwise the invariant is kept, and exactly the named
      child's entry changes, if it has to. */
  lemma StatusMessageKeeps(m: Master, s: int, pid: int, avail: int)
    requires Inv(m) && s in m.servs
    ensures StatusMessage(m, s, pid, avail).Panic? <==> pid in m.table && m.table[pid].serv != s
    ensures StatusMessage(m, s, pid, avail).Fine? ==>
      var m' := StatusMessage(m, s, pid, avail).value;
      Inv(m') && OnlyTouches(m, m', s) && m'.table == Told(m.table, pid, avail)
  {
    if pid in m.table && m.table[pid].serv != s {
    } else if pid in m.table && m.table[pid].avail != avail && avail in {STAT_TAKEN, STAT_AVAIL} {
      MoveKeeps(m, s, pid, Told(m.table, pid, avail)[pid]);
      MessageMoves(m, s, pid, avail);
    } else {
      TouchesNothing(m, s);
    }
  }

  lemma MessageMoves(m: Master, s: int, pid: int, avail: int)
    requires s in m.servs && pid in m.table && m.table[pid].serv == s
    requires m.table[pid].avail != avail && avail in {STAT_TAKEN, STAT_AVAIL}
    requires m.table[pid].avail in {STAT_TAKEN, STAT_AVAIL}
    ensures StatusMessage(m, s, pid, avail) == AvailListen(Move(m, s, pid, Told(m.table, pid, avail)[pid]), s)
  {
    var p, p' := m.table[pid], Told(m.table, pid, avail)[pid];
    if avail == STAT_AVAIL {
      assert m.table[pid := p.(useCount := p.useCount + 1)][pid := p'] == m.table[pid := p'];
    }
  }

  /** The state DeleteChild reaches before it calls master_avail_listen. */
  function Bereft(m: Master, pid: int): Master
    requires pid in m.table && m.table[pid].serv in m.servs
  {
    var p := m.table[pid];
    var sv := m.servs[p.serv].(totalProc := m.servs[p.serv].totalProc - 1);
    if p.avail == STAT_AVAIL then
      Put(m, p.serv, sv.(availProc := sv.availProc - 1)).(table := m.table[pid := p.(avail := STAT_TAKEN)])
    else Put(m, p.serv, sv)
  }

  /** DeleteChild decides again who listens, unless a child that was not idle
      leaves a service that has an idle one or is still above its limit. */
  predicate Redecides(m: Master, pid: int)
    requires pid in m.table && m.table[pid].serv in m.servs
  {
    var sv := m.servs[m.table[pid].serv];
    m.table[pid].avail == STAT_AVAIL || (LimitOk(sv.maxProc, sv.totalProc - 1) && sv.availProc < 1)
  }

  function Outlived(m: Master, pid: int): Outcome
    requires pid in m.table && m.table[pid].serv in m.servs
  {
    if Redecides(m, pid) then AvailListen(Bereft(m, pid), m.table[pid].serv) else Fine(Bereft(m, pid))
  }

  /** All branches of DeleteChild: one child less, and at most one decision. */
  lemma DeleteChildResult(m: Master, pid: int)
    requires Inv(m) && pid in m.table
    ensures Outlived(m, pid).Fine?
    ensures DeleteChild(m, pid) == Fine(Outlived(m, pid).value.(table := m.table - {pid}))
  {
    var p := m.table[pid];
    var s := p.serv;
    assert ServInv(m, s);
    var sv := m.servs[s].(totalProc := m.servs[s].totalProc - 1);
    var m1 := Put(m, s, sv);
    ListenSettles(Bereft(m, pid), s);
    assert Outlived(m, pid).value.table - {pid} == m.table - {pid};
    if p.avail == STAT_AVAIL {
      var w := sv.(availProc := sv.availProc - 1);
      assert m1.servs[s := w] == m.servs[s := w];
      assert AvailLess(m1, s, pid) == AvailListen(Bereft(m, pid), s);
    }
  }

  /** Where it is respected, the limit makes all branches alike: master_avail_listen
      would change nothing where it is not called. */
  lemma DeleteChildSettles(m: Master, pid: int)
    requires Inv(m) && pid in m.table && Fitted(m.servs[m.table[pid].serv])
    ensures Outlived(m, pid) == AvailListen(Bereft(m, pid), m.table[pid].serv)
  {
    assert ServInv(m, m.table[pid].serv);
  }

  lemma OneKidLess(table: map<int, Proc>, pid: int, s: int)
    requires pid in table && table[pid].serv == s
    ensures |Kids(table - {pid}, s)| == |Kids(table, s)| - 1
    ensures |IdleKids(table - {pid}, s)|
         == |IdleKids(table, s)| - if table[pid].avail == STAT_AVAIL then 1 else 0
  {
    assert pid in Kids(table, s);
    assert Kids(table - {pid}, s) == Kids(table, s) - {pid};
    assert IdleKids(table - {pid}, s) == IdleKids(table, s) - {pid};
  }

  lemma OutlivedShape(m: Master, pid: int)
    requires Inv(m) && pid in m.table
    ensures Outlived(m, pid).Fine?
    ensures var m', b, s := Outlived(m, pid).value, Bereft(m, pid), m.table[pid].serv;
      && m'.servs == b.servs[s := b.servs[s].(listen := m'.servs[s].listen)]
      && m'.table == b.table && m'.timers == b.timers && m'.size == m.size
      && Listens(m', s)
      && (m'.reg == m.reg || m'.reg == m.reg - {m.servs[s].listenFd}
          || m'.reg == Registered(m.reg, m.servs[s].listenFd, AvailEvent(s), m.size))
  {
    var s := m.table[pid].serv;
    assert ServInv(m, s);
    ListenSettles(Bereft(m, pid), s);
    if m.table[pid].avail == STAT_AVAIL { assert pid in IdleKids(m.table, s); }
    assert Bereft(m, pid).servs[s].availProc >= 0;
  }

  lemma DeleteChildTouches(m: Master, pid: int)
    requires Inv(m) && pid in m.table
    ensures DeleteChild(m, pid).Fine?
    ensures OnlyTouches(m, DeleteChild(m, pid).value, m.table[pid].serv)
    ensures DeleteChild(m, pid).value.table == m.table - {pid}
  {
    var s := m.table[pid].serv;
    assert ServInv(m, s);
    DeleteChildResult(m, pid);
    ListenSettles(Bereft(m, pid), s);
  }

  lemma DeleteChildKeeps(m: Master, pid: int)
    requires Inv(m) && pid in m.table
    ensures DeleteChild(m, pid).Fine?
    ensures Inv(DeleteChild(m, pid).value)
  {
    var s := m.table[pid].serv;
    assert ServInv(m, s);
    DeleteChildTouches(m, pid);
    DeleteChildResult(m, pid);
    OutlivedShape(m, pid);
    OneKidLess(m.table, pid, s);
    var m' := DeleteChild(m, pid).value;
    assert ServInv(m', s);
    InvFromTouched(m, m', s);
  }

  lemma ReapKeeps(m: Master, pid: int, status: int, now: int)
    requires Inv(m) && pid in m.table
    ensures Reap(m, pid, status, now).Fine?
    ensures Inv(Reap(m, pid, status, now).value)
    ensures Reap(m, pid, status, now).value.table == m.table - {pid}
  {
    var m1 := BackedOff(m, pid, status, now);
    BackOffKeeps(m, pid, status, now);
    DeleteChildKeeps(m1, pid);
    DeleteChildTouches(m1, pid);
  }

  /** The manager when master_reap_child has decided whether to throttle. */
  function BackedOff(m: Master, pid: int, status: int, now: int): Master
    requires pid in m.table && m.table[pid].serv in m.servs
  {
    var p := m.table[pid];
    if status != 0 && p.useCount == 0 && !m.servs[p.serv].throttle then Throttle(m, p.serv, now) else m
  }

  lemma BackOffKeeps(m: Master, pid: int, status: int, now: int)
    requires Inv(m) && pid in m.table
    ensures m.table[pid].serv in m.servs
    ensures var m1 := BackedOff(m, pid, status, now);
      Inv(m1) && OnlyTouches(m, m1, m.table[pid].serv) && m1.table == m.table && m1.reg == m.reg
  {
    var s := m.table[pid].serv;
    if m.servs[s].throttle {
      TouchesNothing(m, s);
    } else {
      ThrottleKeeps(m, s, now);
      TouchesNothing(m, s);
    }
  }

  /** The timers of m', if service s was throttled at `now` or else left as it was. */
  ghost predicate TimersAfter(m: Master, m': Master, s: int, throttled: bool, now: int)
    requires s in m.servs
  {
    if throttled then
      && m'.timers.present == now
      && (forall t :: t in m'.timers.queue <==>
            t in m.timers.queue || t == Timer(now + m.servs[s].throttleDelay, UnthrottleKey(s), m.timers.next))
    else m'.timers == m.timers
  }

  lemma ThrottleTimers(m: Master, s: int, now: int)
    requires Inv(m) && s in m.servs
    ensures TimersAfter(m, Throttle(m, s, now), s, !m.servs[s].throttle, now)
  {
    assert ServInv(m, s);
    if !m.servs[s].throttle {
      var q := m.timers.queue;
      RequestExact(m.timers, UnthrottleKey(s), m.servs[s].throttleDelay, now);
      forall t | t in q ensures t.key != UnthrottleKey(s) {
        var i :| 0 <= i < |q| && q[i] == t;
      }
    }
  }

  /** A reap throttles the service of the child exactly if the child failed before
      its first use, for the delay of the service; otherwise it leaves throttling
      and timers alone. */
  lemma ReapThrottlesExact(m: Master, pid: int, status: int, now: int)
    requires Inv(m) && pid in m.table
    ensures Reap(m, pid, status, now).Fine?
    ensures var s, m' := m.table[pid].serv, Reap(m, pid, status, now).value;
      && s in m.servs && s in m'.servs
      && (m'.servs[s].throttle <==> m.servs[s].throttle || (status != 0 && m.table[pid].useCount == 0))
      && TimersAfter(m, m', s, m'.servs[s].throttle && !m.servs[s].throttle, now)
  {
    var s, m1 := m.table[pid].serv, BackedOff(m, pid, status, now);
    ThrottleTimers(m, s, now);
    BackOffKeeps(m, pid, status, now);
    DeleteChildResult(m1, pid);
    OutlivedShape(m1, pid);
  }

  /** A connection event throttles exactly an unthrottled service whose fork fails. */
  lemma ConnectionThrottlesExact(m: Master, s: int, fork: Fork, now: int)
    requires Inv(m) && s in m.servs && !SpawnPanics(m.servs[s]) && (fork.Child? ==> fork.pid !in m.table)
    ensures ConnectionEvent(m, s, fork, now).Fine?
    ensures var m' := ConnectionEvent(m, s, fork, now).value;
      && s in m'.servs && (m'.servs[s].throttle <==> m.servs[s].throttle || fork.Failed?)
      && TimersAfter(m, m', s, m'.servs[s].throttle && !m.servs[s].throttle, now)
  {
    ConnectionKeeps(m, s, fork, now);
    ThrottleTimers(m, s, now);
    if !m.servs[s].throttle && fork.Child? {
      SpawnResult(m, s, fork.pid, now);
      ListenSettles(Spawned(m, s, fork.pid), s);
    }
  }

  lemma TimerEventKeeps(m: Master)
    requires Inv(m) && m.timers.queue != []
    ensures TimerEvent(m).Fine? && Inv(TimerEvent(m).value)
    ensures m.timers.queue[0].key.context in m.servs
    ensures OnlyTouches(m, TimerEvent(m).value, m.timers.queue[0].key.context)
    ensures TimerEvent(m).value.table == m.table
  {
    var q := m.timers.queue;
    assert q[0] in q;
    var s := q[0].key.context;
    assert ServInv(m, s);
    var m1 := m.(timers := m.timers.(queue := q[1..]));
    FirstOut(m.timers);
    assert Remove(q[1..], UnthrottleKey(s)) == q[1..];
    assert HasKey(q, UnthrottleKey(s));
    ListenSettles(Put(m1, s, m1.servs[s].(throttle := false)), s);
    var m' := TimerEvent(m).value;
    assert m'.timers.queue == q[1..];
    assert OnlyTouches(m, m', s);
    assert ServInv(m', s);
    InvFromTouched(m, m', s);
  }

  /** Taking the first entry off leaves a valid queue without its key. */
  lemma FirstOut(ts: TimerState)
    requires Valid(ts) && ts.queue != []
    ensures Valid(ts.(queue := ts.queue[1..]))
    ensures !HasKey(ts.queue[1..], ts.queue[0].key)
    ensures forall t :: t in ts.queue <==> t in ts.queue[1..] || t == ts.queue[0]
  {
    assert ts.queue == [ts.queue[0]] + ts.queue[1..];
  }
}
