/** The manager's picture of its children: what it believes, corrected by the
    messages still in the pipe, is what the children announced. */
module StatusView {
  import opened Master
  import opened Services
  import opened Protocol

  /** The belief about child p after one message; unknown codes are ignored. */
  function Believed(view: int, msg: Msg, p: int): int {
    if msg.pid == p && msg.avail in {STAT_TAKEN, STAT_AVAIL} then msg.avail else view
  }

  /** The belief `view` about child p, after reading `msgs`. */
  function Replay(view: int, msgs: seq<Msg>, p: int): int
    decreases |msgs|
  {
    if msgs == [] then view else Replay(Believed(view, msgs[0], p), msgs[1..], p)
  }

  /** A child is taken from the moment it announces a connection until it
      announces that it is available again. */
  function Truth(ph: Phase): int { if ph == Serving then STAT_TAKEN else STAT_AVAIL }

  predicate ViewRight(w: World, p: int)
    requires Reported(w, p) && p in w.alive
  {
    Replay(w.m.table[p].avail, w.pipes[w.m.table[p].serv], p) == Truth(w.alive[p])
  }

  /** View plus messages in flight equals truth, for every live child whose
      service is not being stopped. */
  ghost predicate ViewInv(w: World) {
    forall p :: p in w.alive && Reported(w, p) ==> ViewRight(w, p)
  }

  lemma {:induction false} ReplayAppend(view: int, msgs: seq<Msg>, x: Msg, p: int)
    ensures Replay(view, msgs + [x], p) == Believed(Replay(view, msgs, p), x, p)
    decreases |msgs|
  {
    if msgs == [] {
      assert [x][1..] == [];
    } else {
      assert (msgs + [x])[1..] == msgs[1..] + [x];
      ReplayAppend(Believed(view, msgs[0], p), msgs[1..], x, p);
    }
  }

  // ---------------------------------------------------------------------
  // What spoils the view

  /** master_notify fails, or goes into a pipe that nobody reads any more. */
  predicate NotifyLost(w: World, st: Step) {
    st.Notify? && !st.written && Reported(w, st.pid)
  }

  /** A child writes something that is not true of the live child it names. */
  predicate Lies(w: World, st: Step) {
    && st.Scribble? && Reported(w, st.pid) && st.msg.pid in w.alive && Reported(w, st.msg.pid)
    && w.m.table[st.msg.pid].serv == w.m.table[st.pid].serv
    && st.msg.avail in {STAT_TAKEN, STAT_AVAIL} && st.msg.avail != Truth(w.alive[st.msg.pid])
  }

  /** A reload throws away a pipe that holds news about a live child. */
  ghost predicate DropsNews(w: World, st: Step) {
    st.Reload? && exists p :: p in w.alive && HoldsNews(w, st.serv, p)
  }

  /** The pipe of service s would change what is recorded about its child p. */
  predicate HoldsNews(w: World, s: int, p: int) {
    && p in w.m.table && w.m.table[p].serv == s && s in w.pipes
    && Replay(w.m.table[p].avail, w.pipes[s], p) != w.m.table[p].avail
  }

  /** A new child gets a pid about which the pipe holds old news. */
  predicate PidReused(w: World, st: Step) {
    && st.Connect? && st.fork.Child? && st.serv in w.pipes && st.serv in w.m.servs && !w.m.servs[st.serv].throttle
    && Replay(STAT_AVAIL, w.pipes[st.serv], st.fork.pid) != STAT_AVAIL
  }

  ghost predicate Spoils(w: World, st: Step) {
    NotifyLost(w, st) || Lies(w, st) || DropsNews(w, st) || PidReused(w, st)
  }

  /** The view survives the step exactly when nothing spoils it. */
  ghost predicate ViewExact(w: World, w': World, st: Step) { ViewInv(w') <==> !Spoils(w, st) }

  // ---------------------------------------------------------------------
  // Every step

  lemma ConnectView(w: World, s: int, fork: Fork)
    requires WorldInv(w) && ViewInv(w) && Enabled(w, Connect(s, fork)) && Do(w, Connect(s, fork)).Next?
    ensures ViewExact(w, Do(w, Connect(s, fork)).world, Connect(s, fork))
  {
    var w' := Do(w, Connect(s, fork)).world;
    assert w'.m.table == TableAfter(w.m, s, fork) by { ConnectionKeeps(w.m, s, fork, w.now); }
    forall p | p in w.alive && Reported(w', p) ensures ViewRight(w', p) {
      assert ViewRight(w, p);
    }
    if fork.Child? && !w.m.servs[s].throttle {
      assert Reported(w', fork.pid) && (ViewRight(w', fork.pid) <==> !PidReused(w, Connect(s, fork)));
    }
  }

  /** A message goes into the pipe of child p's service. */
  lemma WrittenView(w: World, p: int, msg: Msg, c: int)
    requires Reported(w, p) && Reported(w, c)
    ensures var t := w.m.table[c].serv;
      Replay(w.m.table[c].avail, Written(w, p, msg)[t], c)
      == if t == w.m.table[p].serv then Believed(Replay(w.m.table[c].avail, w.pipes[t], c), msg, c)
         else Replay(w.m.table[c].avail, w.pipes[t], c)
  {
    ReplayAppend(w.m.table[c].avail, w.pipes[w.m.table[c].serv], msg, c);
  }

  lemma NotifyView(w: World, p: int, written: bool)
    requires WorldInv(w) && ViewInv(w) && Enabled(w, Notify(p, written))
    ensures ViewExact(w, Do(w, Notify(p, written)).world, Notify(p, written))
  {
    var w' := Do(w, Notify(p, written)).world;
    if NotifyLost(w, Notify(p, written)) {
      assert ViewRight(w, p) && Reported(w', p);
      assert !ViewRight(w', p);
    } else {
      forall c | c in w'.alive && Reported(w', c) ensures ViewRight(w', c) {
        assert ViewRight(w, c);
        if written { WrittenView(w, p, Msg(p, Announces(w.alive[p])), c); }
      }
    }
  }

  lemma ScribbleView(w: World, p: int, msg: Msg)
    requires WorldInv(w) && ViewInv(w) && Enabled(w, Scribble(p, msg))
    ensures ViewExact(w, Do(w, Scribble(p, msg)).world, Scribble(p, msg))
  {
    var w' := Do(w, Scribble(p, msg)).world;
    forall c | c in w'.alive && Reported(w', c)
      ensures ViewRight(w', c) <==> !(c == msg.pid && Lies(w, Scribble(p, msg)))
    {
      assert ViewRight(w, c);
      WrittenView(w, p, msg, c);
    }
    if Lies(w, Scribble(p, msg)) { assert Reported(w', msg.pid); }
  }

  lemma DeliverView(w: World, s: int)
    requires WorldInv(w) && ViewInv(w) && Enabled(w, Deliver(s)) && Do(w, Deliver(s)).Next?
    ensures ViewInv(Do(w, Deliver(s)).world)
  {
    DeliverResult(w, s);
    var w' := Do(w, Deliver(s)).world;
    var msg := w.pipes[s][0];
    forall p | p in w'.alive && Reported(w', p) ensures ViewRight(w', p) {
      assert ViewRight(w, p);
      assert w'.m.table[p].serv == w.m.table[p].serv;
    }
  }

  lemma ReapView(w: World, p: int)
    requires WorldInv(w) && ViewInv(w) && Enabled(w, ReapOne(p)) && Do(w, ReapOne(p)).Next?
    ensures ViewInv(Do(w, ReapOne(p)).world)
  {
    assert Do(w, ReapOne(p)).world.m.table == w.m.table - {p} by { ReapTouches(w.m, p, w.dead[p], w.now); }
    var w' := Do(w, ReapOne(p)).world;
    forall c | c in w'.alive && Reported(w', c) ensures ViewRight(w', c) {
      assert c != p && ViewRight(w, c);
    }
  }

  lemma ReloadView(w: World, st: Step)
    requires WorldInv(w) && ViewInv(w) && st.Reload? && Enabled(w, st)
    ensures Do(w, st).Next?
    ensures ViewExact(w, Do(w, st).world, st)
  {
    var s := st.serv;
    ReconfigureShape(w.m, s, st.maxProc, st.delay, st.condwake, st.statusFd);
    var w' := Do(w, st).world;
    forall p | p in w.alive && Reported(w', p) ensures ViewRight(w', p) <==> !HoldsNews(w, s, p) {
      assert ViewRight(w, p);
    }
    if DropsNews(w, st) {
      var p :| p in w.alive && HoldsNews(w, s, p);
      assert Reported(w', p);
    }
  }

  lemma LifeView(w: World, st: Step)
    requires WorldInv(w) && ViewInv(w) && Enabled(w, st)
    requires st.Start? || st.BeginStop? || st.EndStop?
    ensures Do(w, st).Next? && ViewInv(Do(w, st).world)
  {
    match st
    case Start(_, _, _, _, _, _) =>
      StartKeeps(w.m, st.serv, st.maxProc, st.delay, st.condwake, st.listenFd, st.statusFd);
      NoKidsNoTimers(w.m, st.serv);
      KeptView(w, Do(w, st).world);
    case BeginStop(s) =>
      StopBeginKeeps(w.m, s, w.now);
      KeptView(w, Do(w, st).world);
    case EndStop =>
      StopEndClean(w.m, w.busy.serv);
      KeptView(w, Do(w, st).world);
  }

  /** Steps that leave the children, the table and their pipes alone. */
  lemma KeptView(w: World, w': World)
    requires Inv(w.m) && ViewInv(w) && w'.alive == w.alive && w'.m.table == w.m.table
    requires forall s :: s in w'.pipes && s in w.m.servs ==> s in w.pipes && w'.pipes[s] == w.pipes[s]
    ensures ViewInv(w')
  {
    forall p | p in w'.alive && Reported(w', p) ensures ViewRight(w', p) {
      assert ViewRight(w, p);
    }
  }

  lemma QuietView(w: World, st: Step)
    requires WorldInv(w) && ViewInv(w) && Enabled(w, st) && (st.TimerFires? || st.Collect? || st.Tick?)
    ensures Do(w, st).Next? && ViewInv(Do(w, st).world)
  {
    if st.TimerFires? {
      assert TimerEvent(w.m).Fine? && TimerEvent(w.m).value.table == w.m.table by { TimerEventKeeps(w.m); }
    }
    KeptView(w, Do(w, st).world);
  }

  lemma ChildView(w: World, st: Step)
    requires WorldInv(w) && ViewInv(w) && Enabled(w, st) && (st.Accept? || st.Die?)
    ensures ViewInv(Do(w, st).world)
  {
    var w' := Do(w, st).world;
    forall c | c in w'.alive && Reported(w', c) ensures ViewRight(w', c) { assert ViewRight(w, c); }
  }

  /** One step keeps view plus messages equal to truth exactly when it is not a
      lost notification, not a false message, not a reload that drops news, and
      not the reuse of a pid about which there is old news. */
  lemma StepViewExact(w: World, st: Step)
    requires WorldInv(w) && ViewInv(w) && Enabled(w, st) && Do(w, st).Next?
    ensures ViewExact(w, Do(w, st).world, st)
  {
    match st
    case Connect(s, fork) => ConnectView(w, s, fork);
    case Notify(p, written) => NotifyView(w, p, written);
    case Scribble(p, msg) => ScribbleView(w, p, msg);
    case Reload(_, _, _, _, _) => ReloadView(w, st);
    case _ => HarmlessExact(w, st);
  }

  lemma HarmlessExact(w: World, st: Step)
    requires WorldInv(w) && ViewInv(w) && Enabled(w, st) && Do(w, st).Next?
    requires !st.Connect? && !st.Notify? && !st.Scribble? && !st.Reload?
    ensures ViewExact(w, Do(w, st).world, st)
  {
    HarmlessView(w, st);
  }

  lemma HarmlessView(w: World, st: Step)
    requires WorldInv(w) && ViewInv(w) && Enabled(w, st) && Do(w, st).Next?
    requires !st.Connect? && !st.Notify? && !st.Scribble? && !st.Reload?
    ensures ViewInv(Do(w, st).world)
  {
    match st
    case Deliver(s) => DeliverView(w, s);
    case ReapOne(p) => ReapView(w, p);
    case Accept(_) => ChildView(w, st);
    case Die(_, _) => ChildView(w, st);
    case Start(_, _, _, _, _, _) => LifeView(w, st);
    case BeginStop(_) => LifeView(w, st);
    case EndStop => LifeView(w, st);
    case _ => QuietView(w, st);
  }

  // ---------------------------------------------------------------------
  // Whole runs

  lemma RunView(ws: seq<World>, steps: seq<Step>, n: nat)
    requires IsRun(ws, steps) && n < |steps| && ViewInv(ws[n])
    ensures ViewInv(ws[n + 1]) <==> !Spoils(ws[n], steps[n])
  {
    RunsAreSafe(ws, steps, n);
    assert Do(ws[n], steps[n]) == Next(ws[n + 1]);
    StepViewExact(ws[n], steps[n]);
  }

  lemma {:induction false} ViewUpTo(ws: seq<World>, steps: seq<Step>, n: nat)
    requires IsRun(ws, steps) && n < |ws|
    requires forall i :: 0 <= i < n ==> !Spoils(ws[i], steps[i])
    ensures ViewInv(ws[n])
  {
    if n > 0 {
      ViewUpTo(ws, steps, n - 1);
      RunView(ws, steps, n - 1);
    }
  }

  /** Over whole runs: the view plus the messages in flight equals the truth in
      every state exactly when no step spoils it. */
  lemma RunsViewExact(ws: seq<World>, steps: seq<Step>)
    requires IsRun(ws, steps)
    ensures (forall n :: 0 <= n < |ws| ==> ViewInv(ws[n]))
            <==> (forall n :: 0 <= n < |steps| ==> !Spoils(ws[n], steps[n]))
  {
    if forall n :: 0 <= n < |steps| ==> !Spoils(ws[n], steps[n]) {
      forall n | 0 <= n < |ws| ensures ViewInv(ws[n]) { ViewUpTo(ws, steps, n); }
    }
    if forall n :: 0 <= n < |ws| ==> ViewInv(ws[n]) {
      forall n | 0 <= n < |steps| ensures !Spoils(ws[n], steps[n]) {
        RunView(ws, steps, n);
        assert ViewInv(ws[n + 1]);
      }
    }
  }

  // ---------------------------------------------------------------------
  // The counter

  ghost function InPhase(w: World, s: int, ph: Phase): set<int> {
    set p | p in w.alive && p in w.m.table && w.m.table[p].serv == s && w.alive[p] == ph
  }

  /** Once the pipe is drained and the dead are reaped, avail_proc counts the
      children that wait, and those that have accepted a connection but not yet
      said so; the others serve. */
  lemma DrainedCountIsTrue(ws: seq<World>, steps: seq<Step>, n: nat, s: int)
    requires IsRun(ws, steps) && n < |ws|
    requires forall i :: 0 <= i < n ==> !Spoils(ws[i], steps[i])
    requires s in ws[n].pipes && ws[n].pipes[s] == []
    requires forall p :: p in ws[n].dead && p in ws[n].m.table ==> ws[n].m.table[p].serv != s
    ensures s in ws[n].m.servs
    ensures ws[n].m.servs[s].availProc == |InPhase(ws[n], s, Waiting)| + |InPhase(ws[n], s, Accepted)|
    ensures ws[n].m.servs[s].totalProc - ws[n].m.servs[s].availProc == |InPhase(ws[n], s, Serving)|
  {
    var w := ws[n];
    ViewUpTo(ws, steps, n);
    RunsAreSafe(ws, steps, n);
    DrainedSets(w, s);
    assert Accounted(w.m, s) by { assert ServInv(w.m, s); }
  }

  lemma DrainedSets(w: World, s: int)
    requires WorldInv(w) && ViewInv(w) && s in w.pipes && w.pipes[s] == []
    requires forall p :: p in w.dead && p in w.m.table ==> w.m.table[p].serv != s
    ensures |IdleKids(w.m.table, s)| == |InPhase(w, s, Waiting)| + |InPhase(w, s, Accepted)|
    ensures |Kids(w.m.table, s)| == |IdleKids(w.m.table, s)| + |InPhase(w, s, Serving)|
  {
    var idle := InPhase(w, s, Waiting) + InPhase(w, s, Accepted);
    var all := IdleKids(w.m.table, s) + InPhase(w, s, Serving);
    forall p | p in Kids(w.m.table, s) ensures Drained(w, s, p) { DrainedChild(w, s, p); }
    forall p ensures (p in IdleKids(w.m.table, s) <==> p in idle) && (p in Kids(w.m.table, s) <==> p in all) {
      assert p in Kids(w.m.table, s) ==> Drained(w, s, p);
    }
    assert IdleKids(w.m.table, s) == idle && InPhase(w, s, Waiting) !! InPhase(w, s, Accepted);
    assert Kids(w.m.table, s) == all && IdleKids(w.m.table, s) !! InPhase(w, s, Serving);
  }

  /** What is recorded about child p is what it announced. */
  predicate Drained(w: World, s: int, p: int) {
    p in w.alive && p in w.m.table && w.m.table[p].avail == Truth(w.alive[p])
  }

  lemma DrainedChild(w: World, s: int, p: int)
    requires WorldInv(w) && ViewInv(w) && s in w.pipes && w.pipes[s] == []
    requires p in w.m.table && w.m.table[p].serv == s && p !in w.dead
    ensures Drained(w, s, p)
  {
    assert p in w.alive && Reported(w, p);
    assert ViewRight(w, p);
  }
}
