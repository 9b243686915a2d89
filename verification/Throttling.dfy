/** Who throttles a service, and for how long, over whole runs. */
module Throttling {
  import opened Timers
  import opened Master
  import opened Services
  import opened Protocol

  /** The service is to be unthrottled at `when`. */
  ghost predicate Until(m: Master, s: int, when: int) {
    exists t :: t in m.timers.queue && t.key == UnthrottleKey(s) && t.when == when
  }

  /** A fork that fails, the beginning of a stop, or the reaping of a child that
      failed before its first use, for a service that is not throttled yet. */
  predicate Throttles(w: World, st: Step, s: int) {
    && s in w.m.servs && !w.m.servs[s].throttle
    && match st
       case Connect(t, fork) => t == s && fork.Failed?
       case BeginStop(t) => t == s
       case ReapOne(p) =>
         p in w.m.table && p in w.dead && w.m.table[p].serv == s && w.dead[p] != 0 && w.m.table[p].useCount == 0
       case _ => false
  }

  /** Its timer expires, or its stop ends. */
  predicate Releases(w: World, st: Step, s: int) {
    || (st.TimerFires? && w.m.timers.queue != [] && w.m.timers.queue[0].key == UnthrottleKey(s))
    || (st.EndStop? && w.busy == Stopping(s))
  }

  /** Throttled exactly while it is to be unthrottled at some time. */
  lemma ThrottledHasTimer(m: Master, s: int)
    requires Inv(m) && s in m.servs
    ensures m.servs[s].throttle <==> exists when :: Until(m, s, when)
    ensures forall a, b :: Until(m, s, a) && Until(m, s, b) ==> a == b
  {
    assert ServInv(m, s);
    var q := m.timers.queue;
    if HasKey(q, UnthrottleKey(s)) {
      var i :| 0 <= i < |q| && q[i].key == UnthrottleKey(s);
      assert q[i] in q && Until(m, s, q[i].when);
    }
  }

  lemma TimersMean(m: Master, m': Master, t: int, throttled: bool, now: int, s: int, when: int)
    requires t in m.servs && TimersAfter(m, m', t, throttled, now)
    ensures Until(m', s, when)
       <==> Until(m, s, when) || (throttled && s == t && when == now + m.servs[t].throttleDelay)
  {
    var u := Timer(now + m.servs[t].throttleDelay, UnthrottleKey(t), m.timers.next);
    if throttled { assert u in m'.timers.queue; }
  }

  /** What a step makes of the time at which a service is to be unthrottled. */
  ghost predicate UntilAfter(w: World, st: Step, s: int, when: int) {
    if Throttles(w, st, s) then when == w.now + w.m.servs[s].throttleDelay
    else Until(w.m, s, when) && !Releases(w, st, s)
  }

  ghost predicate Follows(w: World, w': World, st: Step, s: int, when: int) {
    Until(w'.m, s, when) <==> UntilAfter(w, st, s, when)
  }

  /** A step that throttles at most service t, for its delay. */
  lemma HandlerFollows(w: World, w': World, st: Step, t: int, throttled: bool, s: int, when: int)
    requires Inv(w.m) && t in w.m.servs && TimersAfter(w.m, w'.m, t, throttled, w.now)
    requires forall u :: Throttles(w, st, u) <==> throttled && u == t
    requires !Releases(w, st, s)
    ensures Follows(w, w', st, s, when)
  {
    TimersMean(w.m, w'.m, t, throttled, w.now, s, when);
    if Throttles(w, st, s) { ThrottledHasTimer(w.m, s); }
  }

  lemma ConnectFollows(w: World, t: int, fork: Fork, s: int, when: int)
    requires WorldInv(w) && Enabled(w, Connect(t, fork)) && Do(w, Connect(t, fork)).Next?
    ensures Follows(w, Do(w, Connect(t, fork)).world, Connect(t, fork), s, when)
  {
    var w', sv := Do(w, Connect(t, fork)).world, w.m.servs[t];
    assert ConnectionEvent(w.m, t, fork, w.now) == Fine(w'.m);
    assert !SpawnPanics(sv) by { ConnectionKeeps(w.m, t, fork, w.now); }
    ConnectionThrottlesExact(w.m, t, fork, w.now);
    HandlerFollows(w, w', Connect(t, fork), t, w'.m.servs[t].throttle && !sv.throttle, s, when);
  }

  lemma ReapFollows(w: World, p: int, s: int, when: int)
    requires WorldInv(w) && Enabled(w, ReapOne(p)) && Do(w, ReapOne(p)).Next?
    ensures Follows(w, Do(w, ReapOne(p)).world, ReapOne(p), s, when)
  {
    var w', t := Do(w, ReapOne(p)).world, w.m.table[p].serv;
    assert Reap(w.m, p, w.dead[p], w.now) == Fine(w'.m);
    ReapThrottlesExact(w.m, p, w.dead[p], w.now);
    HandlerFollows(w, w', ReapOne(p), t, w'.m.servs[t].throttle && !w.m.servs[t].throttle, s, when);
  }

  lemma BeginStopFollows(w: World, t: int, s: int, when: int)
    requires WorldInv(w) && Enabled(w, BeginStop(t)) && Do(w, BeginStop(t)).Next?
    ensures Follows(w, Do(w, BeginStop(t)).world, BeginStop(t), s, when)
  {
    var w' := Do(w, BeginStop(t)).world;
    assert w.m.servs[t].statusFd >= 0;
    StatusCleanupKeeps(w.m, t);
    ThrottleTimers(StatusCleanup(w.m, t).value, t, w.now);
    HandlerFollows(w, w', BeginStop(t), t, !w.m.servs[t].throttle, s, when);
  }

  lemma TimerFollows(w: World, s: int, when: int)
    requires WorldInv(w) && Enabled(w, TimerFires) && Do(w, TimerFires).Next?
    ensures Follows(w, Do(w, TimerFires).world, TimerFires, s, when)
  {
    var q, w' := w.m.timers.queue, Do(w, TimerFires).world;
    FirstOut(w.m.timers);
    ExpiryTimers(w.m);
    assert TimerEvent(w.m) == Fine(w'.m);
    forall t | t in q ensures t.key == q[0].key <==> t == q[0] {
      var i :| 0 <= i < |q| && q[i] == t;
    }
    assert forall i :: 0 <= i < |q[1..]| ==> q[1..][i].key != q[0].key;
  }

  lemma ExpiryTimers(m: Master)
    requires Inv(m) && m.timers.queue != [] && TimerEvent(m).Fine?
    ensures TimerEvent(m).value.timers.queue == m.timers.queue[1..]
  {
    var q := m.timers.queue;
    var s := q[0].key.context;
    assert q[0] in q && ServInv(m, s) && HasKey(q, UnthrottleKey(s));
    FirstOut(m.timers);
    assert Remove(q[1..], UnthrottleKey(s)) == q[1..];
    var m1 := m.(timers := m.timers.(queue := q[1..]));
    ListenSettles(Put(m1, s, m.servs[s].(throttle := false)), s);
  }

  lemma EndStopFollows(w: World, s: int, when: int)
    requires WorldInv(w) && Enabled(w, EndStop) && Do(w, EndStop).Next?
    ensures Follows(w, Do(w, EndStop).world, EndStop, s, when)
  {
    var m, t, w' := w.m, w.busy.serv, Do(w, EndStop).world;
    assert ServInv(m, t);
    CancelExact(m.timers, UnthrottleKey(t));
    if m.servs[t].throttle {
      var m1 := Put(m, t, m.servs[t].(throttle := false)).(timers := Cancel(m.timers, UnthrottleKey(t)));
      ListenSettles(m1, t);
      assert w'.m.timers == Cancel(m.timers, UnthrottleKey(t));
    } else {
      assert w'.m.timers == m.timers;
      ThrottledHasTimer(m, t);
    }
  }

  /** Handlers that leave the timers alone. */
  lemma OtherFollows(w: World, st: Step, s: int, when: int)
    requires WorldInv(w) && Enabled(w, st) && Do(w, st).Next?
    requires !st.Connect? && !st.ReapOne? && !st.BeginStop? && !st.TimerFires? && !st.EndStop?
    ensures Follows(w, Do(w, st).world, st, s, when)
  {
    var w' := Do(w, st).world;
    match st {
      case Deliver(t) =>
        DeliverResult(w, t);
        MessageTimers(w.m, t, w.pipes[t][0].pid, w.pipes[t][0].avail);
      case Start(t, maxProc, delay, condwake, lfd, sfd) =>
        StartResult(w.m, t, maxProc, delay, condwake, lfd, sfd);
      case Reload(t, maxProc, delay, condwake, sfd) =>
        ReconfigureShape(w.m, t, maxProc, delay, condwake, sfd);
      case _ =>
    }
    assert w'.m.timers == w.m.timers;
  }

  lemma MessageTimers(m: Master, s: int, pid: int, avail: int)
    requires Inv(m) && s in m.servs && StatusMessage(m, s, pid, avail).Fine?
    ensures StatusMessage(m, s, pid, avail).value.timers == m.timers
  {
    assert ServInv(m, s);
    if pid in m.table && m.table[pid].avail != avail && avail in {STAT_TAKEN, STAT_AVAIL} {
      MessageMoves(m, s, pid, avail);
      ListenSettles(Move(m, s, pid, Told(m.table, pid, avail)[pid]), s);
    }
  }

  /** One step of any kind: who throttles, until when, and who releases. */
  lemma StepFollows(w: World, st: Step, s: int, when: int)
    requires WorldInv(w) && Enabled(w, st) && Do(w, st).Next?
    ensures Follows(w, Do(w, st).world, st, s, when)
  {
    match st
    case Connect(t, fork) => ConnectFollows(w, t, fork, s, when);
    case ReapOne(p) => ReapFollows(w, p, s, when);
    case BeginStop(t) => BeginStopFollows(w, t, s, when);
    case TimerFires => TimerFollows(w, s, when);
    case EndStop => EndStopFollows(w, s, when);
    case _ => OtherFollows(w, st, s, when);
  }

  // ---------------------------------------------------------------------
  // Whole runs

  /** Step n of a run does to the deadline of service s what steps do. */
  ghost predicate FollowsAt(ws: seq<World>, steps: seq<Step>, n: nat, s: int)
    requires n < |steps| < |ws|
  {
    forall when :: Until(ws[n + 1].m, s, when) <==> UntilAfter(ws[n], steps[n], s, when)
  }

  /** So do all, and the run began without timers. */
  ghost predicate AllFollow(ws: seq<World>, steps: seq<Step>, s: int) {
    && |ws| == |steps| + 1
    && (forall n: nat :: n < |steps| ==> FollowsAt(ws, steps, n, s))
    && ws[0].m.timers.queue == []
  }

  lemma RunsFollow(ws: seq<World>, steps: seq<Step>, s: int)
    requires IsRun(ws, steps)
    ensures AllFollow(ws, steps, s)
  {
    forall n: nat | n < |steps| ensures FollowsAt(ws, steps, n, s) { RunFollows(ws, steps, n, s); }
  }

  lemma RunFollows(ws: seq<World>, steps: seq<Step>, n: nat, s: int)
    requires IsRun(ws, steps) && n < |steps|
    ensures FollowsAt(ws, steps, n, s)
  {
    RunsAreSafe(ws, steps, n);
    var w, w' := ws[n], ws[n + 1];
    assert Do(w, steps[n]) == Next(w');
    forall when ensures Until(w'.m, s, when) <==> UntilAfter(w, steps[n], s, when) {
      StepFollows(w, steps[n], s, when);
    }
  }

  /** Step i throttled the service, and nothing has released it before state n. */
  predicate HeldSince(ws: seq<World>, steps: seq<Step>, i: int, n: nat, s: int)
    requires n <= |steps| < |ws|
  {
    0 <= i < n && Throttles(ws[i], steps[i], s) && forall j :: i < j < n ==> !ReleasesAt(ws, steps, j, s)
  }

  predicate ReleasesAt(ws: seq<World>, steps: seq<Step>, j: nat, s: int)
    requires j < |steps| < |ws|
  {
    Releases(ws[j], steps[j], s)
  }

  function Deadline(ws: seq<World>, i: nat, s: int): int
    requires i < |ws| && s in ws[i].m.servs
  {
    ws[i].now + ws[i].m.servs[s].throttleDelay
  }

  lemma {:induction false} HeldUntil(ws: seq<World>, steps: seq<Step>, i: nat, n: nat, s: int)
    requires AllFollow(ws, steps, s) && n <= |steps| && HeldSince(ws, steps, i, n, s)
    requires forall k: nat :: k < |ws| ==> TimerFree(ws[k], s)
    ensures Until(ws[n].m, s, Deadline(ws, i, s))
  {
    var k := n - 1;
    assert FollowsAt(ws, steps, k, s);
    if i < k {
      HeldUntil(ws, steps, i, k, s);
      assert TimerFree(ws[k], s) && !ReleasesAt(ws, steps, k, s);
    }
    assert UntilAfter(ws[k], steps[k], s, Deadline(ws, i, s));
  }

  /** An unthrottled service is not to be unthrottled. */
  ghost predicate TimerFree(w: World, s: int) {
    s in w.m.servs && !w.m.servs[s].throttle ==> forall when :: !Until(w.m, s, when)
  }

  lemma RunsTimerFree(ws: seq<World>, steps: seq<Step>, k: nat, s: int)
    requires IsRun(ws, steps) && k < |ws|
    ensures TimerFree(ws[k], s)
  {
    RunsAreSafe(ws, steps, k);
    if s in ws[k].m.servs { ThrottledHasTimer(ws[k].m, s); }
  }

  lemma {:induction false} UntilSince(ws: seq<World>, steps: seq<Step>, n: nat, s: int, when: int) returns (i: nat)
    requires AllFollow(ws, steps, s) && n <= |steps| && Until(ws[n].m, s, when)
    ensures HeldSince(ws, steps, i, n, s) && when == Deadline(ws, i, s)
  {
    if n == 0 {
      assert false;
    } else {
      var k := n - 1;
      assert FollowsAt(ws, steps, k, s);
      assert UntilAfter(ws[k], steps[k], s, when);
      if Throttles(ws[k], steps[k], s) {
        i := k;
      } else {
        i := UntilSince(ws, steps, k, s, when);
        assert !ReleasesAt(ws, steps, k, s);
      }
    }
  }

  /** In any state of any run a service is to be unthrottled at a time exactly when
      an earlier step throttled it, its delay ends then, and nothing has released
      it since. */
  lemma RunsUntilExact(ws: seq<World>, steps: seq<Step>, n: nat, s: int, when: int)
    requires IsRun(ws, steps) && n < |ws|
    ensures Until(ws[n].m, s, when)
       <==> exists i :: HeldSince(ws, steps, i, n, s) && when == Deadline(ws, i, s)
  {
    RunsFollow(ws, steps, s);
    if Until(ws[n].m, s, when) { var i := UntilSince(ws, steps, n, s, when); }
    forall i | HeldSince(ws, steps, i, n, s) ensures Until(ws[n].m, s, Deadline(ws, i, s)) {
      RunsHold(ws, steps, i, n, s);
    }
  }

  lemma RunsHold(ws: seq<World>, steps: seq<Step>, i: nat, n: nat, s: int)
    requires IsRun(ws, steps) && n < |ws| && HeldSince(ws, steps, i, n, s)
    ensures Until(ws[n].m, s, Deadline(ws, i, s))
  {
    RunsFollow(ws, steps, s);
    forall k: nat | k < |ws| ensures TimerFree(ws[k], s) { RunsTimerFree(ws, steps, k, s); }
    HeldUntil(ws, steps, i, n, s);
  }

  /** A service is throttled exactly when a failed fork, the beginning of a stop or
      the reaping of an unused child that failed has throttled it, and neither its
      timer nor the end of its stop has released it since. */
  lemma RunsThrottledExact(ws: seq<World>, steps: seq<Step>, n: nat, s: int)
    requires IsRun(ws, steps) && n < |ws| && s in ws[n].m.servs
    ensures ws[n].m.servs[s].throttle <==> exists i :: HeldSince(ws, steps, i, n, s)
  {
    RunsAreSafe(ws, steps, n);
    ThrottledHasTimer(ws[n].m, s);
    if ws[n].m.servs[s].throttle {
      var when :| Until(ws[n].m, s, when);
      RunsUntilExact(ws, steps, n, s, when);
    }
    forall i | HeldSince(ws, steps, i, n, s) ensures ws[n].m.servs[s].throttle {
      RunsHold(ws, steps, i, n, s);
    }
  }

  /** No timer releases a service before its delay is over, whatever a reload has
      made of the delay meanwhile. */
  lemma RunsHoldForDelay(ws: seq<World>, steps: seq<Step>, i: nat, n: nat, s: int)
    requires IsRun(ws, steps) && n < |steps| && HeldSince(ws, steps, i, n, s)
    requires steps[n].TimerFires? && Releases(ws[n], steps[n], s)
    ensures ws[n].now >= ws[i].now + ws[i].m.servs[s].throttleDelay
    ensures s in ws[n + 1].m.servs && !ws[n + 1].m.servs[s].throttle
  {
    RunsHold(ws, steps, i, n, s);
    RunsAreSafe(ws, steps, n);
    var m := ws[n].m;
    assert Do(ws[n], steps[n]) == Next(ws[n + 1]);
    assert m.timers.queue[0] in m.timers.queue;
    assert Until(m, s, m.timers.queue[0].when);
    ThrottledHasTimer(m, s);
    TimerEventKeeps(m);
  }

  // ---------------------------------------------------------------------
  // Which children have been used

  /** How often a child has reported that it is available again, since its fork:
      messages that find it recorded as taken. */
  function UsesAfter(w: World, st: Step, p: int, was: int): int {
    match st
    case Connect(s, fork) => if fork == Child(p) && s in w.m.servs && !w.m.servs[s].throttle then 0 else was
    case Deliver(s) =>
      if && s in w.pipes && w.pipes[s] != [] && w.pipes[s][0] == Msg(p, STAT_AVAIL)
         && p in w.m.table && w.m.table[p].avail == STAT_TAKEN
      then was + 1 else was
    case _ => was
  }

  function Uses(ws: seq<World>, steps: seq<Step>, n: nat, p: int): int
    requires n <= |steps| < |ws|
  {
    if n == 0 then 0 else UsesAfter(ws[n - 1], steps[n - 1], p, Uses(ws, steps, n - 1, p))
  }

  /** The table after a step: forked children enter it, reaped ones leave it, and a
      message tells of one. */
  function TableAfterStep(w: World, st: Step): map<int, Proc>
    requires st.Connect? ==> st.serv in w.m.servs
    requires st.Deliver? ==> st.serv in w.pipes && w.pipes[st.serv] != []
  {
    match st
    case Connect(s, fork) => TableAfter(w.m, s, fork)
    case Deliver(s) => Told(w.m.table, w.pipes[s][0].pid, w.pipes[s][0].avail)
    case ReapOne(p) => w.m.table - {p}
    case _ => w.m.table
  }

  lemma StepTable(w: World, st: Step)
    requires WorldInv(w) && Enabled(w, st) && Do(w, st).Next?
    ensures Do(w, st).world.m.table == TableAfterStep(w, st)
  {
    match st
    case Connect(s, fork) => ConnectionKeeps(w.m, s, fork, w.now);
    case Deliver(s) => DeliverResult(w, s);
    case ReapOne(p) => ReapTouches(w.m, p, w.dead[p], w.now);
    case TimerFires => TimerEventKeeps(w.m);
    case Start(_, _, _, _, _, _) => SetupTable(w, st);
    case Reload(_, _, _, _, _) => SetupTable(w, st);
    case BeginStop(s) => StopBeginKeeps(w.m, s, w.now);
    case EndStop => SetupTable(w, st);
    case _ =>
  }

  lemma SetupTable(w: World, st: Step)
    requires WorldInv(w) && Enabled(w, st) && Do(w, st).Next? && (st.Start? || st.Reload? || st.EndStop?)
    ensures Do(w, st).world.m.table == w.m.table
  {
    match st
    case Start(s, maxProc, delay, condwake, lfd, sfd) => StartResult(w.m, s, maxProc, delay, condwake, lfd, sfd);
    case Reload(s, maxProc, delay, condwake, sfd) => ReconfigureShape(w.m, s, maxProc, delay, condwake, sfd);
    case EndStop =>
      assert ServInv(w.m, w.busy.serv);
      StopEndClean(w.m, w.busy.serv);
  }

  /** Step k of a run does to the use count of child p what steps do. */
  predicate UsesAt(ws: seq<World>, steps: seq<Step>, k: nat, p: int)
    requires k < |steps| < |ws|
  {
    p in ws[k + 1].m.table ==>
      if p in ws[k].m.table
      then ws[k + 1].m.table[p].useCount == UsesAfter(ws[k], steps[k], p, ws[k].m.table[p].useCount)
      else IsFork(ws[k], steps[k], p) && ws[k + 1].m.table[p].useCount == 0
  }

  predicate IsFork(w: World, st: Step, p: int) {
    st.Connect? && st.fork == Child(p) && st.serv in w.m.servs && !w.m.servs[st.serv].throttle
  }

  lemma UsesStep(ws: seq<World>, steps: seq<Step>, k: nat, p: int)
    requires IsRun(ws, steps) && k < |steps|
    ensures UsesAt(ws, steps, k, p)
  {
    RunsAreSafe(ws, steps, k);
    assert Enabled(ws[k], steps[k]) && Do(ws[k], steps[k]) == Next(ws[k + 1]);
    StepTable(ws[k], steps[k]);
  }

  lemma {:induction false} UseCountUpTo(ws: seq<World>, steps: seq<Step>, n: nat, p: int)
    requires |ws| == |steps| + 1 && n < |ws| && ws[0].m.table == map[]
    requires forall k: nat :: k < |steps| ==> UsesAt(ws, steps, k, p)
    ensures p in ws[n].m.table ==> ws[n].m.table[p].useCount == Uses(ws, steps, n, p)
  {
    if n > 0 {
      UseCountUpTo(ws, steps, n - 1, p);
      assert UsesAt(ws, steps, n - 1, p);
    }
  }

  /** The use count of a recorded child is how often it has reported that it is
      available again, in every state of every run. */
  lemma RunsUseCount(ws: seq<World>, steps: seq<Step>, n: nat, p: int)
    requires IsRun(ws, steps) && n < |ws| && p in ws[n].m.table
    ensures ws[n].m.table[p].useCount == Uses(ws, steps, n, p)
  {
    forall k: nat | k < |steps| ensures UsesAt(ws, steps, k, p) { UsesStep(ws, steps, k, p); }
    UseCountUpTo(ws, steps, n, p);
  }
}
