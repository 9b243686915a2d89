/** Runs of the protocol into the states that its theorems warn of. */
module Incidents {
  import opened Timers
  import opened Seqs
  import opened Master
  import opened Services
  import opened Protocol
  import opened Coverage
  import opened StatusView

  ghost predicate Reachable(w: World) {
    exists ws, steps :: IsRun(ws, steps) && ws[|steps|] == w
  }

  const SIZE := 10000    // MASTER_MAX_CLIENTS

  const BOOT: World := Boot(SIZE)

  lemma ReachBoot()
    ensures Reachable(BOOT)
  {
    var ws: seq<World>, steps: seq<Step> := [BOOT], [];
    assert IsRun(ws, steps) && ws[|steps|] == BOOT;
  }

  lemma ReachStep(w: World, st: Step, w': World)
    requires Reachable(w) && Enabled(w, st) && Do(w, st) == Next(w')
    ensures Reachable(w')
  {
    var ws, steps :| IsRun(ws, steps) && ws[|steps|] == w;
    RunExtends(ws, steps, st, w');
    assert (ws + [w'])[|steps + [st]|] == w';
  }

  lemma RunExtends(ws: seq<World>, steps: seq<Step>, st: Step, w': World)
    requires IsRun(ws, steps) && Enabled(ws[|steps|], st) && Do(ws[|steps|], st) == Next(w')
    ensures IsRun(ws + [w'], steps + [st])
  {
    var vs, ts := ws + [w'], steps + [st];
    forall i | 0 <= i < |ts| ensures Enabled(vs[i], ts[i]) && Do(vs[i], ts[i]) == Next(vs[i + 1]) {
      if i < |steps| { assert vs[i + 1] == ws[i + 1]; }
    }
  }

  /** One service named 7, with listen socket 3 and status pipe 4. */
  function OneService(sv: Serv, table: map<int, Proc>, reg: map<int, Handler>): Master {
    Master(map[7 := sv], table, TimerState([], 0, 0), reg, SIZE)
  }

  function Counting(limit: nat, listen: bool, avail: int, total: int): Serv {
    Serv(false, listen, false, limit, avail, total, 60, 3, 4)
  }

  const BOTH: map<int, Handler> := map[3 := AvailEvent(7), 4 := StatusEvent(7)]
  const PIPE_ONLY: map<int, Handler> := map[4 := StatusEvent(7)]

  function Calmly(m: Master, alive: map<int, Phase>, msgs: seq<Msg>): World {
    World(m, alive, map[], map[7 := msgs], {}, [], 0, NoStop)
  }

  function Started(limit: nat): World {
    Calmly(OneService(Counting(limit, true, 0, 0), map[], BOTH), map[], [])
  }

  lemma ReachStarted(limit: nat)
    ensures Reachable(Started(limit))
  {
    ReachBoot();
    var st := Start(7, limit, 60, false, 3, 4);
    assert UnusedFd(BOOT.m, 3) && UnusedFd(BOOT.m, 4);
    assert Inv(BOOT.m);
    StartResult(BOOT.m, 7, limit, 60, false, 3, 4);
    assert Do(BOOT, st) == Next(Started(limit));
    ReachStep(BOOT, st, Started(limit));
  }

  /** Child 11 was forked for a connection, and has taken the next one. */
  function Forked(limit: nat): World {
    Calmly(OneService(Counting(limit, false, 1, 1), map[11 := Proc(7, STAT_AVAIL, 0)], PIPE_ONLY),
           map[11 := Waiting], [])
  }

  lemma CollectOne(w: World, fd: int)
    requires Reachable(w) && Quiet(w) && Ready(w, fd)
    ensures Reachable(w.(batch := [fd]))
  {
    assert Distinct([fd]);
    ReachStep(w, Collect([fd]), w.(batch := [fd]));
  }

  lemma ReachForked(limit: nat)
    ensures Reachable(Forked(limit))
  {
    ReachStarted(limit);
    var w := Started(limit);
    CollectOne(w, 3);
    var w1 := w.(batch := [3]);
    assert Entered(w1.m, 7, 11) == OneService(Counting(limit, true, 0, 1), map[11 := Proc(7, STAT_TAKEN, 0)], BOTH);
    assert ConnectionEvent(w1.m, 7, Child(11), 0) == Fine(Forked(limit).m);
    ReachStep(w1, Connect(7, Child(11)), Forked(limit));
  }

  lemma FirstMessage(w: World, p: int, msg: Msg)
    requires Reported(w, p) && w.m.table[p].serv == 7 && w.pipes == map[7 := []]
    ensures Written(w, p, msg) == map[7 := [msg]]
  {
    assert w.pipes[7] + [msg] == [msg];
  }

  /** Child 11 has announced a connection; the message is unread. */
  function Announced(limit: nat): World {
    Forked(limit).(alive := map[11 := Serving], pipes := map[7 := [Msg(11, STAT_TAKEN)]])
  }

  lemma ReachAnnounced(limit: nat)
    ensures Reachable(Announced(limit))
  {
    ReachForked(limit);
    var w := Forked(limit);
    var w1 := w.(alive := map[11 := Accepted]);
    ReachStep(w, Accept(11), w1);
    FirstMessage(w1, 11, Msg(11, STAT_TAKEN));
    ReachStep(w1, Notify(11, true), Announced(limit));
  }

  /** The manager has read it. */
  function Taken(limit: nat): World {
    Calmly(OneService(Counting(limit, LimitOk(limit, 1), 0, 1), map[11 := Proc(7, STAT_TAKEN, 0)],
                      if LimitOk(limit, 1) then BOTH else PIPE_ONLY),
           map[11 := Serving], [])
  }

  lemma ReachTaken(limit: nat)
    ensures Reachable(Taken(limit))
  {
    ReachAnnounced(limit);
    var w := Announced(limit);
    CollectOne(w, 4);
    var w1 := w.(batch := [4]);
    ChildTaken(limit);
    assert Do(w1, Deliver(7)) == Next(Taken(limit));
    ReachStep(w1, Deliver(7), Taken(limit));
  }

  lemma ChildTaken(limit: nat)
    ensures StatusMessage(Announced(limit).m, 7, 11, STAT_TAKEN) == Fine(Taken(limit).m)
  {
    MessageMoves(Announced(limit).m, 7, 11, STAT_TAKEN);
    assert Registered(PIPE_ONLY, 3, AvailEvent(7), SIZE) == BOTH;
  }

  // ---------------------------------------------------------------------

  /** A fork failed at time 0; the timer is set to 60. */
  function Throttled(reg: map<int, Handler>, now: int): World {
    Calmly(OneService(Counting(1, true, 0, 0).(throttle := true), map[], reg)
             .(timers := TimerState([Timer(60, UnthrottleKey(7), 0)], 0, 1)), map[], []).(now := now)
  }

  lemma ReachThrottled()
    ensures Reachable(Throttled(BOTH, 0))
  {
    ReachStarted(1);
    var w := Started(1);
    CollectOne(w, 3);
    assert Remove([], UnthrottleKey(7)) == [];
    ReachStep(w.(batch := [3]), Connect(7, Failed), Throttled(BOTH, 0));
  }

  lemma ReachSpurned()
    ensures Reachable(Throttled(PIPE_ONLY, 60))
  {
    ReachThrottled();
    var w := Throttled(BOTH, 0);
    CollectOne(w, 3);
    assert BOTH - {3} == PIPE_ONLY;
    ReachStep(w.(batch := [3]), Connect(7, Failed), Throttled(PIPE_ONLY, 0));
    ReachStep(Throttled(PIPE_ONLY, 0), Tick(60), Throttled(PIPE_ONLY, 60));
  }

  /** A failed fork, a spurned connection and the timer: an unthrottled service
      without children, with LISTEN set, that nobody watches. */
  lemma Deafness() returns (w: World)
    ensures Reachable(w) && 7 in w.m.servs && w.busy == NoStop && !Covered(w.m, 7)
    ensures w.m.servs[7].listen && w.m.timers.queue == [] && w.m.table == map[] && w.m.reg == PIPE_ONLY
  {
    ReachSpurned();
    var w0 := Throttled(PIPE_ONLY, 60);
    var q := w0.m.timers.queue;
    assert q[1..] == [] && Remove(q[1..], UnthrottleKey(7)) == [];
    var m := OneService(Counting(1, true, 0, 0), map[], PIPE_ONLY).(timers := TimerState([], 0, 1));
    w := w0.(m := m);
    assert TimerEvent(w0.m) == Fine(m);
    ReachStep(w0, TimerFires, w);
  }

  /** A listen socket beyond the registration table: LISTEN is set, and nobody can
      watch. */
  lemma BeyondTable() returns (w: World)
    ensures Reachable(w) && 7 in w.m.servs && w.busy == NoStop && w.m.servs[7].listen && !Covered(w.m, 7)
    ensures w.m.servs[7].listenFd == SIZE && w.m.reg == PIPE_ONLY
  {
    ReachBoot();
    var st := Start(7, 1, 60, false, SIZE, 4);
    assert Inv(BOOT.m);
    StartResult(BOOT.m, 7, 1, 60, false, SIZE, 4);
    w := Do(BOOT, st).world;
    ReachStep(BOOT, st, w);
    assert IdleKids(w.m.table, 7) == {};
  }

  /** A reload that lowers the limit to the children there are; then a
      connection ends the manager, although its socket is registered. */
  lemma ReloadPanic() returns (w: World, st: Step)
    ensures Reachable(w) && st.Connect? && Enabled(w, st) && Watched(w.m, st.serv) && Do(w, st) == Crash
  {
    ReachTaken(2);
    var w0, sv := Taken(2), Counting(1, true, 0, 1);
    var w1 := w0.(m := OneService(sv, w0.m.table, BOTH), orphans := {11});
    Reloaded(w0, 1, w1);
    CollectOne(w1, 3);
    w, st := w1.(batch := [3]), Connect(7, Failed);
  }

  /** A reload that raises the limit: nobody watches, although a child is wanted. */
  lemma ReloadDeafness() returns (w: World)
    ensures Reachable(w) && 7 in w.m.servs && w.busy == NoStop && !Covered(w.m, 7)
    ensures w.m.timers.queue == [] && w.m.reg == PIPE_ONLY
  {
    ReachTaken(1);
    var w0, sv := Taken(1), Counting(2, false, 0, 1);
    w := w0.(m := OneService(sv, w0.m.table, PIPE_ONLY), orphans := {11});
    Reloaded(w0, 2, w);
    assert IdleKids(w.m.table, 7) == {};
  }

  lemma Reloaded(w: World, limit: nat, w': World)
    requires Reachable(w) && Quiet(w) && w.m.servs.Keys == {7} && w.pipes.Keys == {7}
    requires w.m.servs[7].listenFd == 3 && w.m.servs[7].statusFd == 4 && w.m.servs[7].throttleDelay == 60
    requires !w.m.servs[7].condwake && w.m.size == SIZE
    requires w' == w.(pipes := map[7 := []], orphans := w.orphans + Kids(w.m.table, 7), m := w.m.(
      servs := map[7 := w.m.servs[7].(maxProc := limit)],
      reg := (w.m.reg - {4})[4 := StatusEvent(7)]))
    ensures Reachable(w')
  {
    ReconfigureShape(w.m, 7, limit, 60, false, 4);
    assert w.pipes[7 := []] == map[7 := []];
    assert w.m.servs[7 := w'.m.servs[7]] == w'.m.servs;
    ReachStep(w, Reload(7, limit, 60, false, 4), w');
  }

  /** A reload that changes nothing still loses the message in the old pipe. */
  lemma ReloadDropsNews() returns (w: World, st: Step, w': World)
    ensures Reachable(w) && Enabled(w, st) && Fits(w, st) && Do(w, st) == Next(w')
    ensures ViewInv(w) && !ViewInv(w')
  {
    ReachAnnounced(1);
    w, st := Announced(1), Reload(7, 1, 60, false, 4);
    assert ViewRight(w, 11) by { assert w.pipes[7][1..] == []; }
    ReconfigureShape(w.m, 7, 1, 60, false, 4);
    w' := Do(w, st).world;
    assert Reported(w', 11) && !ViewRight(w', 11);
  }

  /** A notification that is not written. */
  lemma LostNotification() returns (w: World)
    ensures Reachable(w) && !ViewInv(w)
  {
    ReachForked(1);
    var w0 := Forked(1);
    var w1 := w0.(alive := map[11 := Accepted]);
    ReachStep(w0, Accept(11), w1);
    w := w0.(alive := map[11 := Serving]);
    ReachStep(w1, Notify(11, false), w);
    assert Reported(w, 11) && !ViewRight(w, 11);
  }

  /** Child 11 is available again; its message and a connection are in one batch. */
  function Batched(): World {
    Taken(2).(alive := map[11 := Waiting], pipes := map[7 := [Msg(11, STAT_AVAIL)]], batch := [4, 3])
  }

  lemma ReachBatched()
    ensures Reachable(Batched())
  {
    ReachTaken(2);
    var w0 := Taken(2);
    var w1 := w0.(alive := map[11 := Waiting], pipes := map[7 := [Msg(11, STAT_AVAIL)]]);
    FirstMessage(w0, 11, Msg(11, STAT_AVAIL));
    ReachStep(w0, Notify(11, true), w1);
    assert Distinct([4, 3]);
    ReachStep(w1, Collect([4, 3]), Batched());
  }

  /** A status event in front of a connection event in one batch: the child that
      becomes available makes the connection event stale. */
  lemma StaleBatch() returns (w: World, st: Step)
    ensures Reachable(w) && st.Connect? && Enabled(w, st) && StaleConnection(w, st) && Do(w, st) == Crash
  {
    ReachBatched();
    var w0 := Batched();
    var m := OneService(Counting(2, false, 1, 1), map[11 := Proc(7, STAT_AVAIL, 1)], PIPE_ONLY);
    w, st := w0.(m := m, pipes := map[7 := []], batch := [3]), Connect(7, Failed);
    ChildComesBack(w0.m, m);
    var msgs := w0.pipes[7];
    assert msgs[1..] == [] && map[7 := msgs][7 := msgs[1..]] == map[7 := []];
    assert w0.batch[1..] == [3];
    DeliverOne(w0, 7, m);
  }

  lemma ChildComesBack(m: Master, m': Master)
    requires m == Taken(2).m
    requires m' == OneService(Counting(2, false, 1, 1), map[11 := Proc(7, STAT_AVAIL, 1)], PIPE_ONLY)
    ensures StatusMessage(m, 7, 11, STAT_AVAIL) == Fine(m')
  {
    MessageMoves(m, 7, 11, STAT_AVAIL);
    var m1 := OneService(Counting(2, true, 1, 1), m'.table, BOTH);
    assert Move(m, 7, 11, Proc(7, STAT_AVAIL, 1)) == m1;
    ListenStops(m'.table);
  }

  lemma ListenStops(table: map<int, Proc>)
    ensures AvailListen(OneService(Counting(2, true, 1, 1), table, BOTH), 7)
         == Fine(OneService(Counting(2, false, 1, 1), table, PIPE_ONLY))
  {
    assert BOTH - {3} == PIPE_ONLY;
  }

  lemma DeliverOne(w: World, s: int, m': Master)
    requires Reachable(w) && Enabled(w, Deliver(s)) && w.m.servs[s].statusFd in w.m.reg
    requires StatusMessage(w.m, s, w.pipes[s][0].pid, w.pipes[s][0].avail) == Fine(m')
    ensures Reachable(w.(m := m', pipes := w.pipes[s := w.pipes[s][1..]], batch := w.batch[1..]))
  {
    ReachStep(w, Deliver(s), w.(m := m', pipes := w.pipes[s := w.pipes[s][1..]], batch := w.batch[1..]));
  }

  /** A second service, 8, beside service 7 with child 11, and then its child 12. */
  const FOUR: map<int, Handler> :=
    map[3 := AvailEvent(7), 4 := StatusEvent(7), 5 := AvailEvent(8), 6 := StatusEvent(8)]
  const THREE: map<int, Handler> := map[3 := AvailEvent(7), 4 := StatusEvent(7), 6 := StatusEvent(8)]

  function Second(listen: bool, kids: int): Serv { Serv(false, listen, false, 1, kids, kids, 60, 5, 6) }

  function Two(sv: Serv, table: map<int, Proc>, reg: map<int, Handler>, alive: map<int, Phase>): World {
    World(Master(map[7 := Counting(2, true, 0, 1), 8 := sv], table, TimerState([], 0, 0), reg, SIZE),
          alive, map[], map[7 := [], 8 := []], {}, [], 0, NoStop)
  }

  function Alone(): World { Two(Second(true, 0), Taken(2).m.table, FOUR, Taken(2).alive) }
  function Paired(): World {
    Two(Second(false, 1), map[11 := Proc(7, STAT_TAKEN, 0), 12 := Proc(8, STAT_AVAIL, 0)], THREE,
        map[11 := Serving, 12 := Waiting])
  }

  lemma ReachSecond()
    ensures Reachable(Alone())
  {
    ReachTaken(2);
    var w0, w1 := Taken(2), Alone();
    var sv := w1.m.servs[8];
    SecondStarts(w0.m, w1.m, sv);
    assert w0.pipes[8 := []] == w1.pipes;
    ReachStep(w0, Start(8, 1, 60, false, 5, 6), w1);
  }

  lemma SecondStarts(m: Master, m': Master, sv: Serv)
    requires m == Taken(2).m && m' == Alone().m && sv == m'.servs[8]
    ensures StartService(m, 8, Fresh(1, 60, false), 5, 6) == Fine(m')
  {
    var m1 := Put(m, 8, Fresh(1, 60, false).(listenFd := 5));
    ListenSettles(m1, 8);
    assert m.servs[8 := sv] == m'.servs;
    assert BOTH[5 := AvailEvent(8)][6 := StatusEvent(8)] == FOUR;
  }

  lemma ReachTwo()
    ensures Reachable(Paired())
  {
    ReachSecond();
    var w1, w2 := Alone(), Paired();
    CollectOne(w1, 5);
    SecondForks(w1.m, w2.m);
    ReachStep(w1.(batch := [5]), Connect(8, Child(12)), w2);
  }

  lemma SecondUnwatched(table: map<int, Proc>)
    ensures AvailListen(Two(Second(true, 1), table, FOUR, map[]).m, 8)
         == Fine(Two(Second(false, 1), table, THREE, map[]).m)
  {
    assert FOUR - {5} == THREE;
    var m := Two(Second(true, 1), table, FOUR, map[]).m;
    assert m.servs[8 := Second(false, 1)] == Two(Second(false, 1), table, THREE, map[]).m.servs;
  }

  lemma SecondSpawned()
    ensures Spawned(Alone().m, 8, 12) == Two(Second(true, 1), Paired().m.table, FOUR, map[]).m
  {
    var m, m1 := Alone().m, Two(Second(true, 1), Paired().m.table, FOUR, map[]).m;
    assert m.table[12 := Proc(8, STAT_AVAIL, 0)] == m1.table && m.servs[8 := Second(true, 1)] == m1.servs;
  }

  lemma SecondForks(m: Master, m': Master)
    requires m == Alone().m
    requires m' == Paired().m
    ensures ConnectionEvent(m, 8, Child(12), 0) == Fine(m')
  {
    SpawnResult(m, 8, 12, 0);
    SecondSpawned();
    SecondUnwatched(m'.table);
    assert m'.servs[8 := Second(false, 1)] == m'.servs;
  }

  /** Child 11 names child 12 of the other service. */
  lemma MisroutedMessage() returns (w: World, st: Step)
    ensures Reachable(w) && st.Deliver? && Enabled(w, st) && Misrouted(w, st) && Do(w, st) == Crash
  {
    ReachTwo();
    var w0 := Paired();
    var msg := Msg(12, STAT_TAKEN);
    var w1 := w0.(pipes := map[7 := [msg], 8 := []]);
    assert w0.pipes[7] + [msg] == [msg];
    assert Written(w0, 11, msg) == w1.pipes;
    ReachStep(w0, Scribble(11, msg), w1);
    CollectOne(w1, 4);
    w, st := w1.(batch := [4]), Deliver(7);
  }
}
