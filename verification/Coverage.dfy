/** Who watches the listen socket, over whole runs: exactly when a service goes
    deaf, when the LISTEN flag stops telling the truth, and when flag,
    registration and counters part. */
module Coverage {
  import opened Timers
  import opened Master
  import opened Services
  import opened Protocol

  // ---------------------------------------------------------------------
  // One service

  /** An unthrottled service below its limit is watched or has an idle child. */
  ghost predicate Covered(m: Master, s: int)
    requires s in m.servs
  {
    !m.servs[s].throttle && LimitOk(m.servs[s].maxProc, m.servs[s].totalProc) ==>
      Watched(m, s) || IdleKids(m.table, s) != {}
  }

  /** Registered exactly when LISTEN is set, exactly when the service is
      unthrottled, has no idle child and may have another one. */
  predicate Tracking(m: Master, s: int)
    requires s in m.servs
  {
    Attentive(m, s) && (m.servs[s].listen <==> Wanted(m.servs[s]))
  }

  /** The listen socket is below the size of the registration table. */
  predicate Inside(m: Master, s: int)
    requires s in m.servs
  {
    m.servs[s].listenFd < m.size
  }

  /** What keeps a service covered: while it is not throttled, LISTEN tells the
      truth, and is set when a child is wanted. */
  predicate Heard(m: Master, s: int)
    requires s in m.servs
  {
    Inside(m, s) && (m.servs[s].throttle || (Attentive(m, s) && (Wanted(m.servs[s]) ==> m.servs[s].listen)))
  }

  /** A service without idle children is covered only if it is throttled, full or
      watched; with what keeps it covered, it always is. */
  lemma HeardIsCovered(m: Master, s: int)
    requires Inv(m) && s in m.servs
    ensures Heard(m, s) ==> Covered(m, s)
    ensures m.servs[s].availProc == 0 && Covered(m, s) ==> Watched(m, s) || !Wanted(m.servs[s])
  {
    assert ServInv(m, s);
    assert |IdleKids(m.table, s)| == 0 <==> IdleKids(m.table, s) == {};
  }

  // ---------------------------------------------------------------------
  // What the handlers do to the service they run for

  /** The handler ended with a decision to listen, or changed nothing that bears
      on one; it did not unthrottle. */
  predicate Redecided(m: Master, m': Master, s: int)
    requires s in m.servs && s in m'.servs
  {
    var sv, sv' := m.servs[s], m'.servs[s];
    && (sv.throttle ==> sv'.throttle)
    && (Inside(m, s) ==> Inside(m', s))
    && (Inside(m, s) && Attentive(m, s) ==> Attentive(m', s))
    && ((Wanted(sv) ==> sv.listen) ==> (Wanted(sv') ==> sv'.listen))
    && (Inside(m, s) && Tracking(m, s) ==> Tracking(m', s))
    && (Fitted(sv) ==> Fitted(sv'))
  }

  /** m differs from m0 in counters and throttling only; then it is decided
      whether to listen. */
  lemma ListenDecides(m0: Master, m: Master, s: int)
    requires s in m.servs && s in m0.servs && m.servs[s].listenFd >= 0
    requires m0.reg == m.reg && m0.size == m.size && m0.servs[s].listen == m.servs[s].listen
    requires m0.servs[s].listenFd == m.servs[s].listenFd
    ensures AvailListen(m, s).Fine? && s in AvailListen(m, s).value.servs
    ensures var m' := AvailListen(m, s).value;
      && m'.servs[s] == m.servs[s].(listen := Wanted(m.servs[s]))
      && (Inside(m0, s) && Attentive(m0, s) ==> Attentive(m', s)) && m'.size == m.size
  {}

  /** After a connection event. */
  lemma ConnectionDecides(m: Master, s: int, fork: Fork, now: int)
    requires Inv(m) && s in m.servs && !SpawnPanics(m.servs[s]) && (fork.Child? ==> fork.pid !in m.table)
    ensures var o, sv := ConnectionEvent(m, s, fork, now), m.servs[s];
      && o.Fine? && s in o.value.servs
      && (Attentive(o.value, s) <==> if sv.throttle then !sv.listen else fork.Child? || Attentive(m, s))
      && (Inside(m, s) ==> Heard(o.value, s))
      && (Tracking(m, s) ==> (Tracking(o.value, s) <==> sv.throttle || fork.Child?))
      && (Fitted(sv) ==> Fitted(o.value.servs[s]))
  {
    ConnectionAttentiveExact(m, s, fork, now);
    assert ServInv(m, s);
    if !m.servs[s].throttle && fork.Child? {
      SpawnResult(m, s, fork.pid, now);
      ListenDecides(m, Spawned(m, s, fork.pid), s);
    }
  }

  lemma MessageDecides(m: Master, s: int, pid: int, avail: int)
    requires Inv(m) && s in m.servs && StatusMessage(m, s, pid, avail).Fine?
    ensures s in StatusMessage(m, s, pid, avail).value.servs
    ensures Redecided(m, StatusMessage(m, s, pid, avail).value, s)
  {
    assert ServInv(m, s);
    if pid in m.table && m.table[pid].avail != avail && avail in {STAT_TAKEN, STAT_AVAIL} {
      MessageMoves(m, s, pid, avail);
      ListenDecides(m, Move(m, s, pid, Told(m.table, pid, avail)[pid]), s);
    }
  }

  /** After a deletion: a decision, or none where none was due. */
  lemma DeletionDecides(m: Master, pid: int)
    requires Inv(m) && pid in m.table
    ensures var s, o := m.table[pid].serv, DeleteChild(m, pid);
      && s in m.servs && o.Fine? && s in o.value.servs
      && (Inside(m, s) ==> Inside(o.value, s))
      && (Inside(m, s) && Attentive(m, s) ==> Attentive(o.value, s))
      && var sv, sv' := m.servs[s], o.value.servs[s];
         && sv'.throttle == sv.throttle && sv'.maxProc == sv.maxProc && sv'.totalProc == sv.totalProc - 1
         && (sv'.listen == Wanted(sv')
             || (sv'.listen == sv.listen && !Wanted(sv') && (sv.listen ==> !LimitOk(sv.maxProc, sv'.totalProc))))
  {
    var s := m.table[pid].serv;
    assert ServInv(m, s);
    DeleteChildResult(m, pid);
    ListenDecides(m, Bereft(m, pid), s);
  }

  lemma ReapDecides(m: Master, pid: int, status: int, now: int)
    requires Inv(m) && pid in m.table
    ensures var s, o := m.table[pid].serv, Reap(m, pid, status, now);
      s in m.servs && o.Fine? && s in o.value.servs && Redecided(m, o.value, s)
  {
    var s := m.table[pid].serv;
    BackOffKeeps(m, pid, status, now);
    DeletionDecides(BackedOff(m, pid, status, now), pid);
    assert m.servs[s].totalProc > 0 by {
      assert ServInv(m, s);
      assert pid in Kids(m.table, s);
    }
  }

  /** LISTEN is set and nobody watches, although there is room for a child. */
  predicate DeafOnceUnthrottled(m: Master, s: int)
    requires s in m.servs
  {
    m.servs[s].listen && !Watched(m, s) && LimitOk(m.servs[s].maxProc, m.servs[s].totalProc)
  }

  /** The timer unthrottles, and trusts LISTEN. */
  lemma TimerDecides(m: Master)
    requires Inv(m) && m.timers.queue != []
    ensures var s, o := m.timers.queue[0].key.context, TimerEvent(m);
      && s in m.servs && o.Fine? && s in o.value.servs && m.servs[s].throttle
      && o.value.servs[s].listen == Wanted(o.value.servs[s])
      && (Inside(m, s) ==> Inside(o.value, s) && (Attentive(o.value, s) <==> !DeafOnceUnthrottled(m, s)))
      && (DeafOnceUnthrottled(m, s) ==> Wanted(o.value.servs[s]) && !Watched(o.value, s))
      && !o.value.servs[s].throttle && (Fitted(m.servs[s]) ==> Fitted(o.value.servs[s]))
  {
    TimerEventKeeps(m);
    var q := m.timers.queue;
    var s := q[0].key.context;
    assert q[0] in q;
    assert ServInv(m, s);
    assert m.servs[s].throttle by { assert HasKey(q, UnthrottleKey(s)); }
  }

  // ---------------------------------------------------------------------
  // One step

  /** LISTEN tells the truth about the registration. */
  ghost predicate AllAttentive(w: World) {
    forall s :: s in w.m.servs ==> Attentive(w.m, s)
  }

  /** What keeps it so. */
  ghost predicate AllTruthful(w: World) {
    forall s :: s in w.m.servs ==> Attentive(w.m, s) && Inside(w.m, s)
  }

  /** No limit is exceeded, and LISTEN suits the limits. */
  ghost predicate AllFitted(w: World) {
    forall s :: s in w.m.servs ==> Fitted(w.m.servs[s])
  }

  /** All but the service that is being stopped. */
  predicate Active(w: World, s: int) { s in w.m.servs && w.busy != Stopping(s) }

  ghost predicate AllCovered(w: World) { forall s :: Active(w, s) ==> Covered(w.m, s) }
  ghost predicate AllHeard(w: World) { forall s :: Active(w, s) ==> Heard(w.m, s) }
  ghost predicate AllTracking(w: World) { forall s :: Active(w, s) ==> Tracking(w.m, s) }
  ghost predicate AllSteady(w: World) { forall s :: Active(w, s) ==> Tracking(w.m, s) && Inside(w.m, s) }

  lemma HeardWorld(w: World)
    requires Inv(w.m) && AllHeard(w)
    ensures AllCovered(w)
  {
    forall s | Active(w, s) ensures Covered(w.m, s) { HeardIsCovered(w.m, s); }
  }

  /** A connection event that finds its service throttled with LISTEN set. */
  predicate Spurned(w: World, st: Step) {
    st.Connect? && st.serv in w.m.servs && w.m.servs[st.serv].throttle && w.m.servs[st.serv].listen
  }

  /** A start on a listen socket beyond the registration table. */
  predicate StartsBeyond(w: World, st: Step) { st.Start? && st.listenFd >= w.m.size }

  /** A timer expiry that finds its service with room, LISTEN set and nobody
      watching; a reload that makes room where LISTEN is not set; or a start on a
      socket that cannot be watched. */
  predicate Deafens(w: World, st: Step) {
    || StartsBeyond(w, st)
    || (st.TimerFires? && w.m.timers.queue != []
        && var s := w.m.timers.queue[0].key.context; s in w.m.servs && DeafOnceUnthrottled(w.m, s))
    || (st.Reload? && st.serv in w.m.servs
        && var sv := w.m.servs[st.serv];
           !sv.throttle && sv.availProc == 0 && !sv.listen && LimitOk(st.maxProc, sv.totalProc))
  }

  predicate ForkFails(w: World, st: Step) {
    st.Connect? && st.serv in w.m.servs && !w.m.servs[st.serv].throttle && st.fork.Failed?
  }

  /** A reload that makes or takes the room for the child that LISTEN stands for. */
  predicate Turns(w: World, st: Step) {
    && st.Reload? && st.serv in w.m.servs && !w.m.servs[st.serv].throttle && w.m.servs[st.serv].availProc == 0
    && (LimitOk(st.maxProc, w.m.servs[st.serv].totalProc) <==> !w.m.servs[st.serv].listen)
  }

  /** A reload sets a limit that suits counters and LISTEN as they are. */
  predicate Fits(w: World, st: Step) {
    st.Reload? && st.serv in w.m.servs ==> ReloadFits(w.m.servs[st.serv], st.maxProc)
  }

  predicate Misleads(w: World, st: Step) { Spurned(w, st) || StartsBeyond(w, st) }

  predicate Unsettles(w: World, st: Step) { ForkFails(w, st) || Turns(w, st) || StartsBeyond(w, st) }

  /** Each property ends with the steps of the kind that ends it; what keeps it
      survives all others. */
  ghost predicate Exact(w: World, w': World, st: Step) {
    && (AllTruthful(w) ==> if Misleads(w, st) then !AllAttentive(w') else AllTruthful(w'))
    && (AllHeard(w) ==> if Deafens(w, st) then !AllCovered(w') else AllHeard(w'))
    && (AllSteady(w) ==> if Unsettles(w, st) then !AllTracking(w') else AllSteady(w'))
    && (AllFitted(w) ==> (AllFitted(w') <==> Fits(w, st)))
  }

  /** Only service s changed. */
  lemma TouchedOnly(w: World, w': World, s: int)
    requires Inv(w.m) && OnlyTouches(w.m, w'.m, s) && w'.busy == w.busy
    ensures AllTruthful(w) ==> (AllTruthful(w') <==> Attentive(w'.m, s) && Inside(w'.m, s))
    ensures AllAttentive(w') ==> Attentive(w'.m, s)
    ensures AllHeard(w) ==> (AllHeard(w') <==> w.busy == Stopping(s) || Heard(w'.m, s))
    ensures AllSteady(w) ==> (AllSteady(w') <==> w.busy == Stopping(s) || (Tracking(w'.m, s) && Inside(w'.m, s)))
    ensures AllTracking(w') ==> w.busy == Stopping(s) || Tracking(w'.m, s)
    ensures AllFitted(w) ==> (AllFitted(w') <==> Fitted(w'.m.servs[s]))
    ensures AllCovered(w') ==> w.busy == Stopping(s) || Covered(w'.m, s)
  {
    forall t | t in w.m.servs && t != s
      ensures (Attentive(w.m, t) <==> Attentive(w'.m, t)) && w'.m.servs[t] == w.m.servs[t] && w'.m.size == w.m.size
    {
      OthersAttentive(w.m, w'.m, s, t);
    }
    assert Active(w', s) <==> w.busy != Stopping(s);
    forall t ensures Active(w, t) <==> Active(w', t) {}
  }

  /** What Exact asks of the one service that a step concerns. */
  ghost predicate Answers(w: World, w': World, st: Step, s: int)
    requires s in w.m.servs && s in w'.m.servs
  {
    var m, m' := w.m, w'.m;
    && (Attentive(m, s) && Inside(m, s) ==>
          if Misleads(w, st) then !Attentive(m', s) else Attentive(m', s) && Inside(m', s))
    && (Heard(m, s) ==> if Deafens(w, st) then !Covered(m', s) else Heard(m', s))
    && (Tracking(m, s) && Inside(m, s) ==>
          if Unsettles(w, st) then !Tracking(m', s) else Tracking(m', s) && Inside(m', s))
    && (Fitted(m.servs[s]) ==> (Fitted(m'.servs[s]) <==> Fits(w, st)))
  }

  lemma TouchedExact(w: World, w': World, st: Step, s: int)
    requires Inv(w.m) && OnlyTouches(w.m, w'.m, s) && w'.busy == w.busy && Answers(w, w', st, s)
    requires w.busy == Stopping(s) ==> !Misleads(w, st) && !Deafens(w, st) && !Unsettles(w, st)
    ensures Exact(w, w', st)
  {
    TouchedOnly(w, w', s);
    assert Active(w, s) || w.busy == Stopping(s);
  }

  /** No service changed in what bears on listening, but some may be new and
      properly watched, or gone, or being stopped now. */
  lemma Unmoved(w: World, w': World, st: Step)
    requires !st.Connect? && !st.TimerFires? && !st.Reload? && !StartsBeyond(w, st)
    requires forall t :: t in w'.m.servs ==> SameEars(w, w', t) || NewlyWatched(w'.m, t)
    ensures Exact(w, w', st)
  {}

  predicate SameEars(w: World, w': World, t: int)
    requires t in w'.m.servs
  {
    && t in w.m.servs && Attentive(w'.m, t) == Attentive(w.m, t) && Inside(w'.m, t) == Inside(w.m, t)
    && (Fitted(w.m.servs[t]) ==> Fitted(w'.m.servs[t]))
    && (Active(w', t) ==> Active(w, t) && SameCounts(w.m.servs[t], w'.m.servs[t]))
  }

  /** The same, but for descriptors and settings that do not bear on listening. */
  predicate SameCounts(a: Serv, b: Serv) {
    && a.listen == b.listen && a.throttle == b.throttle && a.maxProc == b.maxProc
    && a.availProc == b.availProc && a.totalProc == b.totalProc
  }

  predicate NewlyWatched(m: Master, s: int)
    requires s in m.servs
  {
    Inside(m, s) && Watched(m, s) && m.servs[s].listen && Wanted(m.servs[s]) && Fitted(m.servs[s])
  }

  lemma ConnectExact(w: World, s: int, fork: Fork)
    requires WorldInv(w) && Enabled(w, Connect(s, fork)) && Do(w, Connect(s, fork)).Next?
    ensures Exact(w, Do(w, Connect(s, fork)).world, Connect(s, fork))
  {
    var o, w' := ConnectionEvent(w.m, s, fork, w.now), Do(w, Connect(s, fork)).world;
    assert o == Fine(w'.m) && w'.busy == w.busy;
    assert OnlyTouches(w.m, w'.m, s) && !SpawnPanics(w.m.servs[s]) by { ConnectionKeeps(w.m, s, fork, w.now); }
    assert Answers(w, w', Connect(s, fork), s) by { ConnectionDecides(w.m, s, fork, w.now); }
    TouchedExact(w, w', Connect(s, fork), s);
  }

  lemma DeliverExact(w: World, s: int)
    requires WorldInv(w) && Enabled(w, Deliver(s)) && Do(w, Deliver(s)).Next?
    ensures Exact(w, Do(w, Deliver(s)).world, Deliver(s))
  {
    var msg, w' := w.pipes[s][0], Do(w, Deliver(s)).world;
    var o := StatusMessage(w.m, s, msg.pid, msg.avail);
    assert o == Fine(w'.m) && w'.busy == w.busy by { DeliverResult(w, s); }
    assert OnlyTouches(w.m, w'.m, s) by { StatusMessageKeeps(w.m, s, msg.pid, msg.avail); }
    assert Answers(w, w', Deliver(s), s) by { MessageDecides(w.m, s, msg.pid, msg.avail); }
    TouchedExact(w, w', Deliver(s), s);
  }

  lemma ReapExact(w: World, p: int)
    requires WorldInv(w) && Enabled(w, ReapOne(p)) && Do(w, ReapOne(p)).Next?
    ensures Exact(w, Do(w, ReapOne(p)).world, ReapOne(p))
  {
    var s, w' := w.m.table[p].serv, Do(w, ReapOne(p)).world;
    assert Reap(w.m, p, w.dead[p], w.now) == Fine(w'.m) && w'.busy == w.busy;
    assert OnlyTouches(w.m, w'.m, s) by { ReapTouches(w.m, p, w.dead[p], w.now); }
    assert Answers(w, w', ReapOne(p), s) by { ReapDecides(w.m, p, w.dead[p], w.now); }
    TouchedExact(w, w', ReapOne(p), s);
  }

  lemma TimerExact(w: World)
    requires WorldInv(w) && Enabled(w, TimerFires) && Do(w, TimerFires).Next?
    ensures Exact(w, Do(w, TimerFires).world, TimerFires)
  {
    var s, w' := w.m.timers.queue[0].key.context, Do(w, TimerFires).world;
    assert TimerEvent(w.m) == Fine(w'.m) && w'.busy == w.busy;
    assert OnlyTouches(w.m, w'.m, s) && Inv(w'.m) by { TimerEventKeeps(w.m); }
    assert Answers(w, w', TimerFires, s) by {
      TimerDecides(w.m);
      assert ServInv(w.m, s);
      HeardIsCovered(w'.m, s);
    }
    TouchedExact(w, w', TimerFires, s);
  }

  lemma StartExact(w: World, st: Step)
    requires WorldInv(w) && st.Start? && Enabled(w, st) && Do(w, st).Next?
    ensures Exact(w, Do(w, st).world, st)
  {
    var w' := Do(w, st).world;
    forall t | t in w.m.servs ensures t in w'.m.servs && SameEars(w, w', t) { StartSpares(w, st, t); }
    if StartsBeyond(w, st) {
      StartBeyond(w, st);
    } else {
      StartWatches(w, st);
      Unmoved(w, w', st);
    }
  }

  lemma StartSpares(w: World, st: Step, t: int)
    requires WorldInv(w) && st.Start? && Enabled(w, st) && Do(w, st).Next? && t in w.m.servs
    ensures t in Do(w, st).world.m.servs && SameEars(w, Do(w, st).world, t)
  {
    assert w.m.servs[t].listenFd != st.listenFd && w.m.servs[t].listenFd != st.statusFd;
    StartResult(w.m, st.serv, st.maxProc, st.delay, st.condwake, st.listenFd, st.statusFd);
  }

  lemma StartWatches(w: World, st: Step)
    requires WorldInv(w) && st.Start? && Enabled(w, st) && Do(w, st).Next? && !StartsBeyond(w, st)
    ensures st.serv in Do(w, st).world.m.servs && NewlyWatched(Do(w, st).world.m, st.serv)
    ensures Do(w, st).world.m.servs.Keys == w.m.servs.Keys + {st.serv}
  {
    StartResult(w.m, st.serv, st.maxProc, st.delay, st.condwake, st.listenFd, st.statusFd);
  }

  /** A service that nobody can watch is deaf from its start. */
  lemma StartBeyond(w: World, st: Step)
    requires WorldInv(w) && StartsBeyond(w, st) && Enabled(w, st) && Do(w, st).Next?
    ensures var w' := Do(w, st).world; var s := st.serv;
      && Active(w', s) && !Attentive(w'.m, s) && !Tracking(w'.m, s) && !Covered(w'.m, s)
      && Fitted(w'.m.servs[s])
  {
    StartResult(w.m, st.serv, st.maxProc, st.delay, st.condwake, st.listenFd, st.statusFd);
    NoKidsNoTimers(w.m, st.serv);
    assert st.listenFd !in w.m.reg;
  }

  /** A reload leaves every registration of a listen socket alone, and changes
      nothing of a service but its settings and its pipe. */
  lemma ReloadEars(w: World, st: Step, t: int)
    requires WorldInv(w) && st.Reload? && Enabled(w, st) && t in w.m.servs
    requires Do(w, st).Next? && t in Do(w, st).world.m.servs
    ensures var w' := Do(w, st).world;
      && Attentive(w'.m, t) == Attentive(w.m, t) && Inside(w'.m, t) == Inside(w.m, t)
      && SameCounts(w.m.servs[t].(maxProc := w'.m.servs[t].maxProc), w'.m.servs[t])
      && w'.m.servs[t].maxProc == if t == st.serv then st.maxProc else w.m.servs[t].maxProc
  {
    var sfd, lfd, w' := w.m.servs[st.serv].statusFd, w.m.servs[t].listenFd, Do(w, st).world;
    assert Reconfigure(w.m, st.serv, st.maxProc, st.delay, st.condwake, st.statusFd) == Fine(w'.m);
    assert lfd != sfd && lfd != st.statusFd;
    OtherFd(w.m.reg, sfd, st.statusFd, StatusEvent(st.serv), w.m.size, lfd);
    ReconfigureShape(w.m, st.serv, st.maxProc, st.delay, st.condwake, st.statusFd);
  }

  lemma OtherFd(reg: map<int, Handler>, gone: int, fd: int, h: Handler, size: nat, other: int)
    requires other != gone && other != fd
    ensures other in Registered(reg - {gone}, fd, h, size) <==> other in reg
  {}

  lemma ReloadExact(w: World, st: Step)
    requires WorldInv(w) && st.Reload? && Enabled(w, st) && Do(w, st).Next?
    ensures Exact(w, Do(w, st).world, st)
  {
    var s, w' := st.serv, Do(w, st).world;
    ReloadServs(w, st);
    forall t | t in w.m.servs && t != s ensures SameListening(w.m, w'.m, t) { ReloadEars(w, st, t); }
    assert Answers(w, w', st, s) by {
      ReloadEars(w, st, s);
      assert Inv(w'.m) by { ReloadStep(w, st); }
      ReloadTurns(w, w', st);
    }
    ReloadedExact(w, w', st);
  }

  predicate SameListening(m: Master, m': Master, t: int)
    requires t in m.servs && t in m'.servs
  {
    Attentive(m', t) == Attentive(m, t) && Inside(m', t) == Inside(m, t) && SameCounts(m.servs[t], m'.servs[t])
  }

  /** What a reload does to the properties of the service it concerns. */
  lemma ReloadTurns(w: World, w': World, st: Step)
    requires Inv(w.m) && Inv(w'.m) && st.Reload? && st.serv in w.m.servs && st.serv in w'.m.servs
    requires Attentive(w'.m, st.serv) == Attentive(w.m, st.serv) && Inside(w'.m, st.serv) == Inside(w.m, st.serv)
    requires SameCounts(w.m.servs[st.serv].(maxProc := st.maxProc), w'.m.servs[st.serv])
    ensures Answers(w, w', st, st.serv)
  {
    var s := st.serv;
    assert w.m.servs[s].availProc >= 0 && (Watched(w.m, s) ==> w.m.servs[s].listen) by { assert ServInv(w.m, s); }
    HeardIsCovered(w'.m, s);
  }

  /** Only service s changed in what bears on listening. */
  lemma ReloadedExact(w: World, w': World, st: Step)
    requires st.Reload? && Active(w, st.serv) && w'.busy == w.busy
    requires w'.m.servs.Keys == w.m.servs.Keys && Answers(w, w', st, st.serv)
    requires forall t :: t in w.m.servs && t != st.serv ==> SameListening(w.m, w'.m, t)
    ensures Exact(w, w', st)
  {
    assert Active(w', st.serv);
    forall t ensures Active(w, t) <==> Active(w', t) {}
  }

  lemma ReloadServs(w: World, st: Step)
    requires st.Reload? && Enabled(w, st) && Do(w, st).Next?
    ensures Active(w, st.serv)
    ensures Do(w, st).world.m.servs.Keys == w.m.servs.Keys && Do(w, st).world.busy == w.busy
  {}

  lemma BeginStopExact(w: World, s: int)
    requires WorldInv(w) && Enabled(w, BeginStop(s)) && Do(w, BeginStop(s)).Next?
    ensures Exact(w, Do(w, BeginStop(s)).world, BeginStop(s))
  {
    var m, w' := w.m, Do(w, BeginStop(s)).world;
    StopBeginKeeps(m, s, w.now);
    forall t | t in w'.m.servs ensures SameEars(w, w', t) {
      assert m.servs[t].listenFd != m.servs[s].statusFd;
    }
    Unmoved(w, w', BeginStop(s));
  }

  lemma EndStopExact(w: World)
    requires WorldInv(w) && Enabled(w, EndStop) && Do(w, EndStop).Next?
    ensures Exact(w, Do(w, EndStop).world, EndStop)
  {
    var m, s := w.m, w.busy.serv;
    assert m.servs[s].listenFd >= 0 by { assert ServInv(m, s); }
    var w' := Do(w, EndStop).world;
    assert w'.m.servs.Keys == m.servs.Keys - {s} by { StopEndClean(m, s); }
    forall t | t in w'.m.servs ensures SameEars(w, w', t) {
      StopEndServs(m, s);
      assert m.servs[t].listenFd != m.servs[s].listenFd;
    }
    Unmoved(w, w', EndStop);
  }

  lemma OutsideExact(w: World, st: Step)
    requires Enabled(w, st) && Do(w, st).Next?
    requires st.Collect? || st.Accept? || st.Notify? || st.Scribble? || st.Die? || st.Tick?
    ensures Exact(w, Do(w, st).world, st)
  {
    assert Do(w, st).world.m == w.m && Do(w, st).world.busy == w.busy;
    Unmoved(w, Do(w, st).world, st);
  }

  /** One step of any kind, from a good state. */
  lemma StepExact(w: World, st: Step)
    requires WorldInv(w) && Enabled(w, st) && Do(w, st).Next?
    ensures Exact(w, Do(w, st).world, st)
  {
    match st
    case Connect(s, fork) => ConnectExact(w, s, fork);
    case Deliver(s) => DeliverExact(w, s);
    case ReapOne(p) => ReapExact(w, p);
    case TimerFires => TimerExact(w);
    case Start(_, _, _, _, _, _) => StartExact(w, st);
    case Reload(_, _, _, _, _) => ReloadExact(w, st);
    case BeginStop(s) => BeginStopExact(w, s);
    case EndStop => EndStopExact(w);
    case _ => OutsideExact(w, st);
  }

  // ---------------------------------------------------------------------
  // Whole runs

  lemma RunStep(ws: seq<World>, steps: seq<Step>, n: nat)
    requires IsRun(ws, steps) && n < |steps|
    ensures Exact(ws[n], ws[n + 1], steps[n])
  {
    RunsAreSafe(ws, steps, n);
    assert Do(ws[n], steps[n]) == Next(ws[n + 1]);
    StepExact(ws[n], steps[n]);
  }

  /** LISTEN tells the truth in every state of a run exactly when no connection
      event finds its service throttled with LISTEN set, and no service is started
      on a socket beyond the registration table. */
  lemma RunsAttentiveExact(ws: seq<World>, steps: seq<Step>)
    requires IsRun(ws, steps)
    ensures (forall n :: 0 <= n < |ws| ==> AllAttentive(ws[n]))
            <==> (forall n :: 0 <= n < |steps| ==> !Misleads(ws[n], steps[n]))
  {
    if forall n :: 0 <= n < |steps| ==> !Misleads(ws[n], steps[n]) {
      forall n | 0 <= n < |ws| ensures AllAttentive(ws[n]) { TruthfulUpTo(ws, steps, n); }
    }
    if forall n :: 0 <= n < |ws| ==> AllAttentive(ws[n]) {
      forall n | 0 <= n < |steps| ensures !Misleads(ws[n], steps[n]) { AttentiveUpTo(ws, steps, n); }
    }
  }

  lemma {:induction false} TruthfulUpTo(ws: seq<World>, steps: seq<Step>, n: nat)
    requires IsRun(ws, steps) && n < |ws|
    requires forall i :: 0 <= i < n ==> !Misleads(ws[i], steps[i])
    ensures AllTruthful(ws[n])
  {
    if n > 0 {
      TruthfulUpTo(ws, steps, n - 1);
      RunStep(ws, steps, n - 1);
    }
  }

  lemma {:induction false} AttentiveUpTo(ws: seq<World>, steps: seq<Step>, n: nat)
    requires IsRun(ws, steps) && n < |steps|
    requires forall i :: 0 <= i < |ws| ==> AllAttentive(ws[i])
    ensures AllTruthful(ws[n]) && !Misleads(ws[n], steps[n])
  {
    if n > 0 {
      AttentiveUpTo(ws, steps, n - 1);
      RunStep(ws, steps, n - 1);
    }
    RunStep(ws, steps, n);
    assert AllAttentive(ws[n + 1]);
  }

  /** Every service that is not being stopped is covered in every state of a run
      exactly when no step of the run deafens one: no timer expiry finds room,
      LISTEN set and nobody watching, no reload makes room where LISTEN is not
      set, and no service is started on a socket beyond the registration table. */
  lemma RunsCoveredExact(ws: seq<World>, steps: seq<Step>)
    requires IsRun(ws, steps)
    ensures (forall n :: 0 <= n < |ws| ==> AllCovered(ws[n]))
            <==> (forall n :: 0 <= n < |steps| ==> !Deafens(ws[n], steps[n]))
  {
    if forall n :: 0 <= n < |steps| ==> !Deafens(ws[n], steps[n]) {
      forall n | 0 <= n < |ws| ensures AllCovered(ws[n]) {
        HeardUpTo(ws, steps, n);
        RunsAreSafe(ws, steps, n);
        HeardWorld(ws[n]);
      }
    }
    if forall n :: 0 <= n < |ws| ==> AllCovered(ws[n]) {
      forall n | 0 <= n < |steps| ensures !Deafens(ws[n], steps[n]) { CoveredUpTo(ws, steps, n); }
    }
  }

  lemma {:induction false} HeardUpTo(ws: seq<World>, steps: seq<Step>, n: nat)
    requires IsRun(ws, steps) && n < |ws|
    requires forall i :: 0 <= i < n ==> !Deafens(ws[i], steps[i])
    ensures AllHeard(ws[n])
  {
    if n > 0 {
      HeardUpTo(ws, steps, n - 1);
      RunStep(ws, steps, n - 1);
    }
  }

  lemma {:induction false} CoveredUpTo(ws: seq<World>, steps: seq<Step>, n: nat)
    requires IsRun(ws, steps) && n < |steps|
    requires forall i :: 0 <= i < |ws| ==> AllCovered(ws[i])
    ensures AllHeard(ws[n]) && !Deafens(ws[n], steps[n])
  {
    if n > 0 {
      CoveredUpTo(ws, steps, n - 1);
      RunStep(ws, steps, n - 1);
    }
    RunStep(ws, steps, n);
    assert AllCovered(ws[n + 1]);
  }

  /** Every service that is not being stopped has its socket registered exactly
      when LISTEN is set, exactly when it needs and may have another child, in
      every state of a run exactly when no fork fails, no reload makes or takes
      the room for that child, and no service is started on a socket beyond the
      registration table. */
  lemma RunsTrackingExact(ws: seq<World>, steps: seq<Step>)
    requires IsRun(ws, steps)
    ensures (forall n :: 0 <= n < |ws| ==> AllTracking(ws[n]))
            <==> (forall n :: 0 <= n < |steps| ==> !Unsettles(ws[n], steps[n]))
  {
    if forall n :: 0 <= n < |steps| ==> !Unsettles(ws[n], steps[n]) {
      forall n | 0 <= n < |ws| ensures AllTracking(ws[n]) { SteadyUpTo(ws, steps, n); }
    }
    if forall n :: 0 <= n < |ws| ==> AllTracking(ws[n]) {
      forall n | 0 <= n < |steps| ensures !Unsettles(ws[n], steps[n]) { TrackingUpTo(ws, steps, n); }
    }
  }

  lemma {:induction false} SteadyUpTo(ws: seq<World>, steps: seq<Step>, n: nat)
    requires IsRun(ws, steps) && n < |ws|
    requires forall i :: 0 <= i < n ==> !Unsettles(ws[i], steps[i])
    ensures AllSteady(ws[n])
  {
    if n > 0 {
      SteadyUpTo(ws, steps, n - 1);
      RunStep(ws, steps, n - 1);
    }
  }

  lemma {:induction false} TrackingUpTo(ws: seq<World>, steps: seq<Step>, n: nat)
    requires IsRun(ws, steps) && n < |steps|
    requires forall i :: 0 <= i < |ws| ==> AllTracking(ws[i])
    ensures AllSteady(ws[n]) && !Unsettles(ws[n], steps[n])
  {
    if n > 0 {
      TrackingUpTo(ws, steps, n - 1);
      RunStep(ws, steps, n - 1);
    }
    RunStep(ws, steps, n);
    assert AllTracking(ws[n + 1]);
  }

  /** As long as nothing has unsettled it: every service that is not being stopped
      has its socket registered exactly when LISTEN is set, exactly when it is
      unthrottled, has no idle child and may have another one; so it is watched or
      has an idle child. */
  lemma RunsAreCovered(ws: seq<World>, steps: seq<Step>, n: nat, s: int)
    requires IsRun(ws, steps) && n < |ws|
    requires forall i :: 0 <= i < n ==> !Unsettles(ws[i], steps[i])
    requires s in ws[n].m.servs && ws[n].busy != Stopping(s)
    ensures var m := ws[n].m; var sv := m.servs[s];
      && (Watched(m, s) <==> sv.listen)
      && (sv.listen <==> !sv.throttle && sv.availProc == 0 && LimitOk(sv.maxProc, sv.totalProc))
      && (!sv.throttle && LimitOk(sv.maxProc, sv.totalProc) ==>
            Watched(m, s) || IdleKids(m.table, s) != {})
  {
    SteadyUpTo(ws, steps, n);
    RunsAreSafe(ws, steps, n);
    var m := ws[n].m;
    assert Active(ws[n], s);
    assert ServInv(m, s);
    HeardIsCovered(m, s);
  }

  /** While nothing unsettles them, no connection is spurned and no step deafens a
      service. */
  lemma NoFailureNoDeafness(ws: seq<World>, steps: seq<Step>, n: nat)
    requires IsRun(ws, steps) && n < |steps|
    requires forall i :: 0 <= i <= n ==> !Unsettles(ws[i], steps[i])
    ensures !Spurned(ws[n], steps[n]) && !Deafens(ws[n], steps[n])
  {
    SteadyUpTo(ws, steps, n);
    var w, st := ws[n], steps[n];
    assert Enabled(w, st);
    if st.Connect? { assert Active(w, st.serv); }
    if st.TimerFires? && w.m.timers.queue[0].key.context in w.m.servs {
      assert Active(w, w.m.timers.queue[0].key.context);
    }
  }

  /** A status pipe with unread messages can be collected exactly when it is below
      the size of the registration table; beyond it, its messages are never read. */
  lemma RunsReadExact(ws: seq<World>, steps: seq<Step>, n: nat, s: int)
    requires IsRun(ws, steps) && n < |ws| && s in ws[n].pipes && ws[n].pipes[s] != []
    ensures s in ws[n].m.servs
    ensures Ready(ws[n], ws[n].m.servs[s].statusFd) <==> ws[n].m.servs[s].statusFd < ws[n].m.size
    ensures ws[n].m.servs[s].statusFd >= ws[n].m.size ==> !Enabled(ws[n], Deliver(s))
  {
    RunsAreSafe(ws, steps, n);
    var w := ws[n];
    var fd := w.m.servs[s].statusFd;
    assert ServInv(w.m, s);
    if fd in w.m.reg { assert OwnedBy(w.m, fd, w.m.reg[fd]); }
    if Enabled(w, Deliver(s)) { assert w.batch[0] in w.batch; }
  }
}
