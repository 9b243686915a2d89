/** The process manager together with its children, as a distributed state
    machine: children serve connections and report down one status pipe per
    service (src/master/single_server.c, src/master/master_proto.c); the manager
    runs its handlers one at a time. Every interleaving is a run. */
module Protocol {
  import opened Timers
  import opened Seqs
  import opened Master
  import opened Services

  /** A child waits for a connection, has accepted one but not yet said so, or
      has announced it and serves it. */
  datatype Phase = Waiting | Accepted | Serving

  /** MASTER_STATUS */
  datatype Msg = Msg(pid: int, avail: int)

  /** master_stop_service blocks the manager while it waits for children. */
  datatype Busy = NoStop | Stopping(serv: int)

  datatype World = World(
    m: Master,
    alive: map<int, Phase>,
    dead: map<int, int>,            // exit status of children not yet reaped
    pipes: map<int, seq<Msg>>,      // unread messages of each open status pipe
    orphans: set<int>,              // children whose pipe a reload has replaced
    batch: seq<int>,                // what epoll_wait returned, not yet dispatched
    now: int,
    busy: Busy)

  datatype Step =
    | Collect(fds: seq<int>)
    | Connect(serv: int, fork: Fork)
    | Accept(pid: int)
    | Notify(pid: int, written: bool)
    | Scribble(pid: int, msg: Msg)
    | Deliver(serv: int)
    | Die(pid: int, status: int)
    | ReapOne(pid: int)
    | TimerFires
    | Tick(now: int)
    | Start(serv: int, maxProc: nat, delay: nat, condwake: bool, listenFd: int, statusFd: int)
    | Reload(serv: int, maxProc: nat, delay: nat, condwake: bool, statusFd: int)
    | BeginStop(serv: int)
    | EndStop

  /** master_notify: what a child in this phase announces, and where it goes. */
  function Announces(ph: Phase): int { if ph == Accepted then STAT_TAKEN else STAT_AVAIL }
  function After(ph: Phase): Phase { if ph == Accepted then Serving else Waiting }

  /** The manager reads a pipe for the service of child `pid`. */
  predicate Reported(w: World, pid: int) { pid in w.m.table && w.m.table[pid].serv in w.pipes }

  /** That pipe is the one the child writes to. */
  predicate PipeOpen(w: World, pid: int) { Reported(w, pid) && pid !in w.orphans }

  /** epoll_wait found descriptor fd readable, or a connection waits there. */
  predicate Ready(w: World, fd: int) {
    fd in w.m.reg
    && (w.m.reg[fd].StatusEvent? ==> w.m.reg[fd].serv in w.pipes && w.pipes[w.m.reg[fd].serv] != [])
  }

  /** The next event to dispatch is for descriptor fd. */
  predicate Due(w: World, fd: int) { w.busy.NoStop? && w.batch != [] && w.batch[0] == fd }

  /** Nothing of a batch is left, and the manager is not waiting for children. */
  predicate Quiet(w: World) { w.busy.NoStop? && w.batch == [] }

  ghost predicate Enabled(w: World, st: Step) {
    match st
    case Collect(fds) => Quiet(w) && Distinct(fds) && forall fd :: fd in fds ==> Ready(w, fd)
    case Connect(s, fork) =>
      && s in w.m.servs && Due(w, w.m.servs[s].listenFd)
      && (fork.Child? ==> fork.pid !in w.m.table)
    case Accept(p) => p in w.alive && w.alive[p] == Waiting
    case Notify(p, written) =>
      p in w.alive && w.alive[p] != Waiting && (written ==> PipeOpen(w, p))
    case Scribble(p, _) => p in w.alive && PipeOpen(w, p)
    case Deliver(s) =>
      s in w.m.servs && Due(w, w.m.servs[s].statusFd) && s in w.pipes && w.pipes[s] != []
    case Die(p, _) => p in w.alive
    case ReapOne(p) => p in w.dead
    case TimerFires =>
      && w.busy.NoStop? && w.m.timers.queue != [] && w.m.timers.queue[0].when <= w.now
    case Tick(t) => w.now <= t
    case Start(s, _, _, _, lfd, sfd) =>
      && Quiet(w) && s !in w.m.servs && s !in w.pipes
      && UnusedFd(w.m, lfd) && UnusedFd(w.m, sfd) && lfd != sfd
    case Reload(s, _, _, _, sfd) => Quiet(w) && s in w.m.servs && FreeFor(w.m, s, sfd)
    case BeginStop(s) => Quiet(w) && s in w.m.servs
    case EndStop =>
      w.busy.Stopping? && w.busy.serv in w.m.servs && w.m.servs[w.busy.serv].totalProc == 0
  }

  datatype Result = Next(world: World) | Crash

  function With(w: World, o: Outcome): Result {
    if o.Panic? then Crash else Next(w.(m := o.value))
  }

  /** The first test of the dispatch loop: no descriptor this high is registered. */
  predicate BeyondMaxFd(m: Master, fd: int) { forall f :: f in m.reg ==> f < fd }

  /** Dispatching the first event of the batch, whose handler has the outcome o. */
  function Dispatch(w: World, fd: int, o: Outcome): Result
    requires w.batch != []
  {
    if BeyondMaxFd(w.m, fd) then Crash else With(w.(batch := w.batch[1..]), o)
  }

  /** The children once the connection event of s is handled. */
  function Born(w: World, s: int, fork: Fork): map<int, Phase>
    requires s in w.m.servs
  {
    if fork.Child? && !w.m.servs[s].throttle then w.alive[fork.pid := Waiting] else w.alive
  }

  /** A message goes into the pipe of child p's service. */
  function Written(w: World, p: int, msg: Msg): map<int, seq<Msg>>
    requires Reported(w, p)
  {
    var s := w.m.table[p].serv;
    w.pipes[s := w.pipes[s] + [msg]]
  }

  ghost function Do(w: World, st: Step): Result
    requires Enabled(w, st)
  {
    match st
    case Collect(fds) => Next(w.(batch := fds))
    case Connect(s, fork) =>
      Dispatch(w.(alive := Born(w, s, fork)), w.m.servs[s].listenFd, ConnectionEvent(w.m, s, fork, w.now))
    case Accept(p) => Next(w.(alive := w.alive[p := Accepted]))
    case Notify(p, written) =>
      Next(w.(alive := w.alive[p := After(w.alive[p])],
                     pipes := if written then Written(w, p, Msg(p, Announces(w.alive[p]))) else w.pipes))
    case Scribble(p, msg) => Next(w.(pipes := Written(w, p, msg)))
    case Deliver(s) =>
      var msg := w.pipes[s][0];
      Dispatch(w.(pipes := w.pipes[s := w.pipes[s][1..]]), w.m.servs[s].statusFd,
               StatusMessage(w.m, s, msg.pid, msg.avail))
    case Die(p, status) => Next(w.(alive := w.alive - {p}, dead := w.dead[p := status]))
    case ReapOne(p) =>
      With(w.(dead := w.dead - {p}, orphans := w.orphans - {p}), Reap(w.m, p, w.dead[p], w.now))
    case TimerFires => With(w, TimerEvent(w.m))
    case Tick(t) => Next(w.(now := t))
    case Start(s, maxProc, delay, condwake, lfd, sfd) =>
      With(w.(pipes := w.pipes[s := []]), StartService(w.m, s, Fresh(maxProc, delay, condwake), lfd, sfd))
    case Reload(s, maxProc, delay, condwake, sfd) =>
      With(w.(pipes := w.pipes[s := []], orphans := w.orphans + Kids(w.m.table, s)),
           Reconfigure(w.m, s, maxProc, delay, condwake, sfd))
    case BeginStop(s) =>
      With(w.(pipes := w.pipes - {s}, busy := Stopping(s)), StopBegin(w.m, s, w.now))
    case EndStop =>
      var o := StopEnd(w.m, w.busy.serv);
      if o.Panic? then Crash else Next(w.(m := Free(o.value, w.busy.serv), busy := NoStop))
  }

  /** The manager at its start, with a registration table for `size` descriptors. */
  function Boot(size: nat): World {
    World(Master(map[], map[], TimerState([], 0, 0), map[], size), map[], map[], map[], {}, [], 0, NoStop)
  }

  /** The steps of a run are those taken from its states; a run has not crashed. */
  ghost predicate IsRun(ws: seq<World>, steps: seq<Step>) {
    && |ws| == |steps| + 1
    && ws[0] == Boot(ws[0].m.size)
    && forall i :: 0 <= i < |steps| ==> Enabled(ws[i], steps[i]) && Do(ws[i], steps[i]) == Next(ws[i + 1])
  }

  // ---------------------------------------------------------------------
  // The invariant

  ghost predicate PipesOk(w: World) {
    forall s :: s in w.pipes <==> s in w.m.servs && w.m.servs[s].statusFd >= 0
  }

  ghost predicate BusyOk(w: World) {
    && (forall s :: s in w.m.servs && w.busy != Stopping(s) ==> w.m.servs[s].statusFd >= 0)
    && (w.busy.Stopping? ==> w.busy.serv in w.m.servs && w.m.servs[w.busy.serv].statusFd < 0 && w.batch == [])
  }

  ghost predicate ChildrenKnown(w: World) {
    w.m.table.Keys == w.alive.Keys + w.dead.Keys && w.alive.Keys !! w.dead.Keys && w.orphans <= w.m.table.Keys
  }

  predicate HasFd(m: Master, s: int, fd: int) {
    s in m.servs && (m.servs[s].listenFd == fd || m.servs[s].statusFd == fd)
  }

  /** Every event still to be dispatched has a service that exists as its context. */
  ghost predicate BatchOk(w: World) {
    forall fd :: fd in w.batch ==> fd < w.m.size && exists s :: HasFd(w.m, s, fd)
  }

  ghost predicate WorldInv(w: World) {
    Inv(w.m) && PipesOk(w) && BusyOk(w) && ChildrenKnown(w) && BatchOk(w)
  }

  // ---------------------------------------------------------------------
  // When a step ends the manager, and when it breaks the invariant

  /** A connection event left over in the batch: meanwhile the descriptor has
      gone beyond maxfd, or a child has become available or used up the limit. */
  predicate StaleConnection(w: World, st: Step) {
    && st.Connect? && st.serv in w.m.servs
    && (BeyondMaxFd(w.m, w.m.servs[st.serv].listenFd) || SpawnPanics(w.m.servs[st.serv]))
  }

  /** The message to be read names a child of another service. */
  predicate Misrouted(w: World, st: Step) {
    && st.Deliver? && st.serv in w.pipes && w.pipes[st.serv] != []
    && var p := w.pipes[st.serv][0].pid; p in w.m.table && w.m.table[p].serv != st.serv
  }

  predicate Fatal(w: World, st: Step) { StaleConnection(w, st) || Misrouted(w, st) }

  // ---------------------------------------------------------------------
  // Every step

  /** A handler that keeps services and descriptors keeps what is said of pipes,
      of the stop and of the batch. */
  lemma FrameKeeps(w: World, w': World)
    requires PipesOk(w) && BusyOk(w) && BatchOk(w) && SameDescriptors(w.m, w'.m)
    requires w'.pipes.Keys == w.pipes.Keys && w'.busy == w.busy
    requires forall fd :: fd in w'.batch ==> fd in w.batch
    requires w.busy.Stopping? ==> w'.batch == []
    ensures PipesOk(w') && BusyOk(w') && BatchOk(w')
  {
    forall s | s in w.m.servs ensures SameFds(w.m.servs[s], w'.m.servs[s]) {}
    forall fd | fd in w'.batch ensures exists s :: HasFd(w'.m, s, fd) {
      var s :| HasFd(w.m, s, fd);
      assert HasFd(w'.m, s, fd);
    }
  }

  ghost predicate StepOk(w: World, st: Step)
    requires Enabled(w, st)
  {
    && (Do(w, st).Crash? <==> Fatal(w, st))
    && (Do(w, st).Next? ==> WorldInv(Do(w, st).world))
  }

  lemma CollectStep(w: World, st: Step)
    requires WorldInv(w) && Enabled(w, st) && st.Collect?
    ensures StepOk(w, st)
  {
    forall fd | fd in st.fds ensures exists s :: HasFd(w.m, s, fd) {
      assert Ready(w, fd);
      assert OwnedBy(w.m, fd, w.m.reg[fd]);
      assert HasFd(w.m, w.m.reg[fd].serv, fd);
    }
  }

  lemma ConnectStep(w: World, s: int, fork: Fork)
    requires WorldInv(w) && Enabled(w, Connect(s, fork))
    ensures StepOk(w, Connect(s, fork))
  {
    var o := ConnectionEvent(w.m, s, fork, w.now);
    assert o.Panic? <==> SpawnPanics(w.m.servs[s]) by { ConnectionKeeps(w.m, s, fork, w.now); }
    if o.Fine? {
      assert Inv(o.value) && SameDescriptors(w.m, o.value) && o.value.table == TableAfter(w.m, s, fork) by {
        ConnectionKeeps(w.m, s, fork, w.now);
      }
      var w' := w.(m := o.value, alive := Born(w, s, fork), batch := w.batch[1..]);
      FrameKeeps(w, w');
      assert ChildrenKnown(w');
    }
  }

  lemma WriteStep(w: World, st: Step)
    requires WorldInv(w) && Enabled(w, st) && (st.Notify? || st.Scribble?)
    ensures StepOk(w, st)
  {
    FrameKeeps(w, Do(w, st).world);
  }

  lemma DeliverStep(w: World, s: int)
    requires WorldInv(w) && Enabled(w, Deliver(s))
    ensures StepOk(w, Deliver(s))
  {
    var msg := w.pipes[s][0];
    var o := StatusMessage(w.m, s, msg.pid, msg.avail);
    DeliverResult(w, s);
    if o.Fine? {
      assert Inv(o.value) && SameDescriptors(w.m, o.value) && o.value.table.Keys == w.m.table.Keys by {
        StatusMessageKeeps(w.m, s, msg.pid, msg.avail);
      }
      FrameKeeps(w, Do(w, Deliver(s)).world);
    }
  }

  /** What delivering a message comes to. */
  lemma DeliverResult(w: World, s: int)
    requires WorldInv(w) && Enabled(w, Deliver(s))
    ensures var msg := w.pipes[s][0];
      var o := StatusMessage(w.m, s, msg.pid, msg.avail);
      && (o.Panic? <==> Fatal(w, Deliver(s)))
      && (o.Fine? ==> o.value.table == Told(w.m.table, msg.pid, msg.avail))
      && Do(w, Deliver(s)) == With(w.(pipes := w.pipes[s := w.pipes[s][1..]], batch := w.batch[1..]), o)
  {
    var msg := w.pipes[s][0];
    assert !BeyondMaxFd(w.m, w.m.servs[s].statusFd) by {
      assert w.batch[0] in w.batch;
      assert ServInv(w.m, s);
    }
    StatusMessageKeeps(w.m, s, msg.pid, msg.avail);
  }

  lemma ReapStep(w: World, p: int)
    requires WorldInv(w) && Enabled(w, ReapOne(p))
    ensures StepOk(w, ReapOne(p))
  {
    var o := Reap(w.m, p, w.dead[p], w.now);
    assert o.Fine? && Inv(o.value) && SameDescriptors(w.m, o.value) && o.value.table == w.m.table - {p} by {
      ReapTouches(w.m, p, w.dead[p], w.now);
    }
    var w' := w.(m := o.value, dead := w.dead - {p}, orphans := w.orphans - {p});
    FrameKeeps(w, w');
    assert ChildrenKnown(w');
  }

  lemma TimerStep(w: World)
    requires WorldInv(w) && Enabled(w, TimerFires)
    ensures StepOk(w, TimerFires)
  {
    TimerEventKeeps(w.m);
    FrameKeeps(w, Do(w, TimerFires).world);
  }

  lemma StartStep(w: World, st: Step)
    requires WorldInv(w) && st.Start? && Enabled(w, st)
    ensures StepOk(w, st)
  {
    StartKeeps(w.m, st.serv, st.maxProc, st.delay, st.condwake, st.listenFd, st.statusFd);
  }

  lemma ReloadStep(w: World, st: Step)
    requires WorldInv(w) && st.Reload? && Enabled(w, st)
    ensures StepOk(w, st)
  {
    var o := Reconfigure(w.m, st.serv, st.maxProc, st.delay, st.condwake, st.statusFd);
    assert o.Fine? && Inv(o.value) by {
      ReconfigureExact(w.m, st.serv, st.maxProc, st.delay, st.condwake, st.statusFd);
    }
    ReloadFrame(w, st, o.value);
  }

  lemma ReloadFrame(w: World, st: Step, m': Master)
    requires PipesOk(w) && BusyOk(w) && ChildrenKnown(w) && st.Reload? && Enabled(w, st)
    requires Reconfigure(w.m, st.serv, st.maxProc, st.delay, st.condwake, st.statusFd) == Fine(m')
    ensures Do(w, st).Next? && var w' := Do(w, st).world;
      w'.m == m' && PipesOk(w') && BusyOk(w') && ChildrenKnown(w') && BatchOk(w')
  {
    assert w.m.servs[st.serv].statusFd >= 0;
    ReconfigureShape(w.m, st.serv, st.maxProc, st.delay, st.condwake, st.statusFd);
  }

  lemma BeginStopStep(w: World, s: int)
    requires WorldInv(w) && Enabled(w, BeginStop(s))
    ensures StepOk(w, BeginStop(s))
  {
    var o := StopBegin(w.m, s, w.now);
    assert o.Fine? && Inv(o.value) && o.value.table == w.m.table && o.value.servs.Keys == w.m.servs.Keys
        && o.value.servs[s].statusFd == -1
        && forall t :: t in w.m.servs && t != s ==> o.value.servs[t] == w.m.servs[t] by {
      StopBeginKeeps(w.m, s, w.now);
    }
    BeginStopFrame(w, s, o.value);
  }

  lemma BeginStopFrame(w: World, s: int, m': Master)
    requires PipesOk(w) && BusyOk(w) && ChildrenKnown(w) && Enabled(w, BeginStop(s))
    requires StopBegin(w.m, s, w.now) == Fine(m') && m'.table == w.m.table && m'.servs.Keys == w.m.servs.Keys
    requires m'.servs[s].statusFd == -1 && forall t :: t in w.m.servs && t != s ==> m'.servs[t] == w.m.servs[t]
    ensures Do(w, BeginStop(s)).Next? && var w' := Do(w, BeginStop(s)).world;
      w'.m == m' && PipesOk(w') && BusyOk(w') && ChildrenKnown(w') && BatchOk(w')
  {}

  lemma EndStopStep(w: World)
    requires WorldInv(w) && Enabled(w, EndStop)
    ensures StepOk(w, EndStop)
  {
    var s := w.busy.serv;
    var o := StopEnd(w.m, s);
    assert o.Fine? && Inv(Free(o.value, s)) && o.value.table == w.m.table && o.value.servs.Keys == w.m.servs.Keys by {
      StopEndClean(w.m, s);
    }
    EndStopFrame(w, s, o.value);
  }

  lemma EndStopFrame(w: World, s: int, m': Master)
    requires WorldInv(w) && Enabled(w, EndStop) && s == w.busy.serv && StopEnd(w.m, s) == Fine(m')
    requires m'.table == w.m.table && m'.servs.Keys == w.m.servs.Keys
    ensures Do(w, EndStop).Next? && var w' := Do(w, EndStop).world;
      w'.m == Free(m', s) && PipesOk(w') && BusyOk(w') && ChildrenKnown(w') && BatchOk(w')
  {
    assert w.m.servs[s].listenFd >= 0 by { assert ServInv(w.m, s); }
    StopEndServs(w.m, s);
  }

  /** From a good state, a step ends the manager exactly when it dispatches an
      event that has become stale or a misrouted message; otherwise it leads to a
      good state, whatever a reload may ask for. */
  lemma StepExact(w: World, st: Step)
    requires WorldInv(w) && Enabled(w, st)
    ensures Do(w, st).Crash? <==> Fatal(w, st)
    ensures Do(w, st).Next? ==> WorldInv(Do(w, st).world)
  {
    assert StepOk(w, st) by {
      match st
      case Collect(_) => CollectStep(w, st);
      case Connect(s, fork) => ConnectStep(w, s, fork);
      case Notify(_, _) => WriteStep(w, st);
      case Scribble(_, _) => WriteStep(w, st);
      case Deliver(s) => DeliverStep(w, s);
      case ReapOne(p) => ReapStep(w, p);
      case TimerFires => TimerStep(w);
      case Start(_, _, _, _, _, _) => StartStep(w, st);
      case Reload(_, _, _, _, _) => ReloadStep(w, st);
      case BeginStop(s) => BeginStopStep(w, s);
      case EndStop => EndStopStep(w);
      case Accept(_) => ChildStep(w, st);
      case Die(_, _) => ChildStep(w, st);
      case Tick(_) => ChildStep(w, st);
    }
  }

  /** Steps that the manager does not see. */
  lemma ChildStep(w: World, st: Step)
    requires WorldInv(w) && Enabled(w, st) && (st.Accept? || st.Die? || st.Tick?)
    ensures StepOk(w, st)
  {}

  // ---------------------------------------------------------------------
  // Every run

  /** Safety: in every state of every run, the counters equal the table's counts,
      registration implies LISTEN implies that there is no idle child, a service
      is throttled exactly when its timer is queued, and every event left to
      dispatch belongs to a service that exists. */
  lemma {:induction false} RunsAreSafe(ws: seq<World>, steps: seq<Step>, n: nat)
    requires IsRun(ws, steps) && n < |ws|
    ensures WorldInv(ws[n])
  {
    if n > 0 {
      RunsAreSafe(ws, steps, n - 1);
      StepExact(ws[n - 1], steps[n - 1]);
    }
  }

  /** What can follow in a run ends the manager exactly when it is fatal. */
  lemma RunsPanicExact(ws: seq<World>, steps: seq<Step>, n: nat, st: Step)
    requires IsRun(ws, steps) && n < |ws| && Enabled(ws[n], st)
    ensures Do(ws[n], st).Crash? <==> Fatal(ws[n], st)
  {
    RunsAreSafe(ws, steps, n);
    StepExact(ws[n], st);
  }

  /** Whenever a stop ends, in any run, the service it frees is referred to by no
      child entry, no timer and no registered descriptor; it is gone afterwards,
      and all others keep their invariant. */
  lemma RunsStopCleanly(ws: seq<World>, steps: seq<Step>, n: nat)
    requires IsRun(ws, steps) && n < |steps| && steps[n].EndStop?
    ensures ws[n].busy.Stopping? && ws[n].busy.serv in ws[n].m.servs
    ensures StopEnd(ws[n].m, ws[n].busy.serv).Fine?
    ensures NoReference(StopEnd(ws[n].m, ws[n].busy.serv).value, ws[n].busy.serv)
    ensures ws[n + 1].m.servs.Keys == ws[n].m.servs.Keys - {ws[n].busy.serv} && Inv(ws[n + 1].m)
  {
    RunsAreSafe(ws, steps, n);
    StopEndClean(ws[n].m, ws[n].busy.serv);
  }
}
