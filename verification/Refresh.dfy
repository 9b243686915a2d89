/** What the calls that master_refresh makes do to the manager's state: the
    handlers of Services, folded over the calls of Config. */
module Refresh {
  import opened Options
  import opened Master
  import opened Services
  import C = Config

  /** The descriptors that the system gives out for one call. */
  datatype Fds = Fds(listenFd: int, statusFd: int)

  /** When a service is stopped, and which deaths its wait loop sees. */
  datatype Ending = Ending(now: int, deaths: seq<Death>)

  ghost predicate Injective(id: C.Key -> int) { forall j, k :: id(j) == id(k) ==> j == k }

  /** No stop is in progress. */
  predicate Ready(m: Master) { forall s :: s in m.servs ==> m.servs[s].statusFd >= 0 }

  // ---------------------------------------------------------------------
  // The entries

  function Start(m: Master, s: int, st: C.Settings, fds: Fds): Outcome {
    StartService(m, s, Fresh(st.maxProc, st.throttleDelay, st.condwake), fds.listenFd, fds.statusFd)
  }

  function Restart(m: Master, s: int, st: C.Settings, fds: Fds): Outcome
    requires s in m.servs
  {
    Reconfigure(m, s, st.maxProc, st.throttleDelay, st.condwake, fds.statusFd)
  }

  function Handle(m: Master, s: int, st: C.Settings, fds: Fds): Outcome {
    if s in m.servs then Restart(m, s, st, fds) else Start(m, s, st, fds)
  }

  function Entries(m: Master, id: C.Key -> int, es: seq<C.Entry>, fs: seq<Fds>): Outcome
    requires |fs| == |es|
  {
    if es == [] then Fine(m)
    else
      var k := |es| - 1;
      var m1 :- Entries(m, id, es[..k], fs[..k]);
      Handle(m1, id(es[k].key), es[k].settings, fs[k])
  }

  /** What the system may give out when service s is started or restarted. */
  ghost predicate NewFds(m: Master, s: int, fds: Fds) {
    if s in m.servs then FreeFor(m, s, fds.statusFd)
    else UnusedFd(m, fds.listenFd) && UnusedFd(m, fds.statusFd) && fds.listenFd != fds.statusFd
  }

  /** The descriptors given out are unused at that moment. */
  ghost predicate AllNewFds(m: Master, id: C.Key -> int, es: seq<C.Entry>, fs: seq<Fds>)
    requires |fs| == |es|
  {
    es == [] ||
    var k := |es| - 1;
    && AllNewFds(m, id, es[..k], fs[..k])
    && (Entries(m, id, es[..k], fs[..k]).Fine? ==>
          NewFds(Entries(m, id, es[..k], fs[..k]).value, id(es[k].key), fs[k]))
  }

  predicate HasSettings(sv: Serv, st: C.Settings) {
    sv.maxProc == st.maxProc && sv.throttleDelay == st.throttleDelay && sv.condwake == st.condwake
  }

  /** Counters, flags and listen socket are the same. */
  predicate SameLife(a: Serv, b: Serv) {
    && a.throttle == b.throttle && a.listen == b.listen && a.listenFd == b.listenFd
    && a.availProc == b.availProc && a.totalProc == b.totalProc
  }

  /** One entry, handled. */
  lemma HandleKeeps(m: Master, s: int, st: C.Settings, fds: Fds)
    requires Inv(m) && Ready(m) && NewFds(m, s, fds)
    ensures Handle(m, s, st, fds).Fine?
    ensures var m' := Handle(m, s, st, fds).value;
      && Inv(m') && Ready(m') && m'.table == m.table && m'.timers == m.timers
      && m'.servs.Keys == m.servs.Keys + {s} && HasSettings(m'.servs[s], st)
      && (forall t :: t in m.servs && t != s ==> m'.servs[t] == m.servs[t])
      && (s in m.servs ==> SameLife(m.servs[s], m'.servs[s]))
  {
    if s in m.servs {
      assert Inv(Restart(m, s, st, fds).value) by {
        ReconfigureExact(m, s, st.maxProc, st.throttleDelay, st.condwake, fds.statusFd);
      }
      ReconfigureShape(m, s, st.maxProc, st.throttleDelay, st.condwake, fds.statusFd);
    } else {
      StartKeeps(m, s, st.maxProc, st.throttleDelay, st.condwake, fds.listenFd, fds.statusFd);
    }
  }

  /** The manager's state after the entries es, seen from before. */
  ghost predicate Reflected(m: Master, m': Master, id: C.Key -> int, es: seq<C.Entry>) {
    && Inv(m') && Ready(m') && m'.table == m.table && m'.timers == m.timers
    && (forall s :: s in m'.servs <==> s in m.servs || IsNamed(id, es, s))
    && (forall k :: C.Last(es, k).Some? ==>
          id(k) in m'.servs && HasSettings(m'.servs[id(k)], C.Last(es, k).value))
    && (forall s :: s in m.servs && !IsNamed(id, es, s) ==> m'.servs[s] == m.servs[s])
    && (forall s :: s in m.servs ==> s in m'.servs && SameLife(m.servs[s], m'.servs[s]))
  }

  ghost predicate IsNamed(id: C.Key -> int, es: seq<C.Entry>, s: int) {
    exists k :: C.Last(es, k).Some? && id(k) == s
  }

  lemma NamedNext(id: C.Key -> int, es: seq<C.Entry>, s: int)
    requires es != []
    ensures IsNamed(id, es, s) <==> IsNamed(id, es[..|es| - 1], s) || s == id(es[|es| - 1].key)
  {
    var k, e := |es| - 1, es[|es| - 1];
    if IsNamed(id, es[..k], s) {
      var key :| C.Last(es[..k], key).Some? && id(key) == s;
      assert C.Last(es, key).Some?;
    }
    assert C.Last(es, e.key).Some?;
    if IsNamed(id, es, s) {
      var key :| C.Last(es, key).Some? && id(key) == s;
      assert key == e.key || C.Last(es[..k], key).Some?;
    }
  }

  lemma ReflectedNext(m: Master, m1: Master, m': Master, id: C.Key -> int, es: seq<C.Entry>, fds: Fds)
    requires es != [] && Injective(id) && Reflected(m, m1, id, es[..|es| - 1]) && NewFds(m1, id(es[|es| - 1].key), fds)
    requires Handle(m1, id(es[|es| - 1].key), es[|es| - 1].settings, fds) == Fine(m')
    ensures Reflected(m, m', id, es)
  {
    var e, n, es1 := es[|es| - 1], id(es[|es| - 1].key), es[..|es| - 1];
    HandleKeeps(m1, n, e.settings, fds);
    forall s ensures IsNamed(id, es, s) <==> IsNamed(id, es1, s) || s == n { NamedNext(id, es, s); }
    forall k | C.Last(es, k).Some? ensures id(k) in m'.servs && HasSettings(m'.servs[id(k)], C.Last(es, k).value) {
      if k != e.key {
        assert id(k) != n && C.Last(es1, k) == C.Last(es, k);
      }
    }
    forall s | s in m.servs ensures s in m'.servs && SameLife(m.servs[s], m'.servs[s]) {
      assert SameLife(m.servs[s], m1.servs[s]);
    }
  }

  lemma {:induction false} EntriesReflected(m: Master, id: C.Key -> int, es: seq<C.Entry>, fs: seq<Fds>)
    requires Injective(id) && Inv(m) && Ready(m) && |fs| == |es| && AllNewFds(m, id, es, fs)
    ensures Entries(m, id, es, fs).Fine? && Reflected(m, Entries(m, id, es, fs).value, id, es)
  {
    if es == [] {
      NothingReflected(m, id);
    } else {
      var k := |es| - 1;
      var e, o1 := es[k], Entries(m, id, es[..k], fs[..k]);
      EntriesReflected(m, id, es[..k], fs[..k]);
      var o := Handle(o1.value, id(e.key), e.settings, fs[k]);
      assert o.Fine? by { HandleKeeps(o1.value, id(e.key), e.settings, fs[k]); }
      ReflectedNext(m, o1.value, o.value, id, es, fs[k]);
    }
  }

  lemma NothingReflected(m: Master, id: C.Key -> int)
    requires Inv(m) && Ready(m)
    ensures Reflected(m, m, id, [])
  {}

  // ---------------------------------------------------------------------
  // The stops

  function StopAll(m: Master, ss: seq<int>, env: seq<Ending>): Outcome
    requires |env| == |ss|
    decreases |ss|
  {
    if ss == [] then Fine(m)
    else if ss[0] !in m.servs then Panic
    else
      var m1 :- StopService(m, ss[0], env[0].now, env[0].deaths);
      StopAll(Free(m1, ss[0]), ss[1..], env[1..])
  }

  /** Each wait loop ends: all children of the service die, and perhaps others. */
  ghost predicate Ends(m: Master, ss: seq<int>, env: seq<Ending>)
    requires |env| == |ss|
    decreases |ss|
  {
    ss == [] ||
    (ss[0] in m.servs &&
     var s, e := ss[0], env[0];
     && Reapable(m.table, e.deaths) && Kids(m.table, s) <= Pids(e.deaths)
     && var o := StopService(m, s, e.now, e.deaths);
        (o.Fine? ==> Ends(Free(o.value, s), ss[1..], env[1..])))
  }

  function Dead(env: seq<Ending>): set<int> {
    if env == [] then {} else Pids(env[0].deaths) + Dead(env[1..])
  }

  /** No child of service t is among the dead. */
  ghost predicate Spared(table: map<int, Proc>, t: int, dead: set<int>) {
    forall p :: p in dead && p in table ==> table[p].serv != t
  }

  lemma {:induction false} ReapAllSpares(m: Master, ds: seq<Death>, t: int)
    requires Inv(m) && Reapable(m.table, ds) && t in m.servs && Spared(m.table, t, Pids(ds))
    ensures ReapAll(m, ds).Fine? && t in ReapAll(m, ds).value.servs
    ensures ReapAll(m, ds).value.servs[t] == m.servs[t]
    decreases |ds|
  {
    if ds != [] {
      var d, rest := ds[0], ds[1..];
      var m1 := Reap(m, d.pid, d.status, d.now);
      assert d in ds && d.pid in Pids(ds);
      assert m1.Fine? && Inv(m1.value) && m1.value.table == m.table - {d.pid}
          && t in m1.value.servs && m1.value.servs[t] == m.servs[t] by {
        ReapTouches(m, d.pid, d.status, d.now);
      }
      assert forall p :: p in Pids(rest) ==> p in Pids(ds) by {
        assert forall x :: x in rest ==> x in ds;
      }
      ReapAllSpares(m1.value, rest, t);
    }
  }

  predicate SameSettings(a: Serv, b: Serv) {
    a.maxProc == b.maxProc && a.throttleDelay == b.throttleDelay && a.condwake == b.condwake
  }

  lemma ReapSettings(m: Master, pid: int, status: int, now: int, t: int)
    requires Inv(m) && pid in m.table && t in m.servs
    ensures Reap(m, pid, status, now).Fine? && t in Reap(m, pid, status, now).value.servs
    ensures SameSettings(m.servs[t], Reap(m, pid, status, now).value.servs[t])
  {
    var m1 := BackedOff(m, pid, status, now);
    BackOffKeeps(m, pid, status, now);
    DeleteChildResult(m1, pid);
    OutlivedShape(m1, pid);
  }

  lemma {:induction false} ReapAllSettings(m: Master, ds: seq<Death>, t: int)
    requires Inv(m) && Reapable(m.table, ds) && t in m.servs
    ensures ReapAll(m, ds).Fine? && t in ReapAll(m, ds).value.servs
    ensures SameSettings(m.servs[t], ReapAll(m, ds).value.servs[t])
    decreases |ds|
  {
    if ds != [] {
      var d := ds[0];
      var m1 := Reap(m, d.pid, d.status, d.now);
      assert m1.Fine? && Inv(m1.value) && m1.value.table == m.table - {d.pid} by {
        ReapTouches(m, d.pid, d.status, d.now);
      }
      ReapSettings(m, d.pid, d.status, d.now, t);
      ReapAllSettings(m1.value, ds[1..], t);
    }
  }

  /** One stop: the service is gone, the dead are gone from the table, and a
      service all of whose children live is as it was. */
  lemma StopKeeps(m: Master, s: int, e: Ending)
    requires Inv(m) && Ready(m) && s in m.servs
    requires Reapable(m.table, e.deaths) && Kids(m.table, s) <= Pids(e.deaths)
    ensures StopService(m, s, e.now, e.deaths).Fine?
    ensures var m' := Free(StopService(m, s, e.now, e.deaths).value, s);
      && Inv(m') && Ready(m') && m'.servs.Keys == m.servs.Keys - {s} && m'.table == m.table - Pids(e.deaths)
      && (forall t :: t in m'.servs ==> SameSettings(m.servs[t], m'.servs[t]))
      && forall t :: t in m'.servs && Spared(m.table, t, Pids(e.deaths)) ==> m'.servs[t] == m.servs[t]
  {
    StopLeavesNoReference(m, s, e.now, e.deaths);
    StopParts(m, s, e);
    var m' := Free(StopService(m, s, e.now, e.deaths).value, s);
    forall t | t in m'.servs
      ensures m'.servs[t].statusFd >= 0 && SameSettings(m.servs[t], m'.servs[t])
      ensures Spared(m.table, t, Pids(e.deaths)) ==> m'.servs[t] == m.servs[t]
    {
      if Spared(m.table, t, Pids(e.deaths)) { StopSpares(m, s, e, t); }
    }
  }

  /** The three stages of a stop. */
  lemma StopParts(m: Master, s: int, e: Ending)
    requires Inv(m) && Ready(m) && s in m.servs
    requires Reapable(m.table, e.deaths) && Kids(m.table, s) <= Pids(e.deaths)
    ensures StopService(m, s, e.now, e.deaths).Fine?
    ensures var m' := StopService(m, s, e.now, e.deaths).value;
      && m'.servs.Keys == m.servs.Keys && m'.table == m.table - Pids(e.deaths)
      && forall t :: t in m.servs && t != s ==>
           m'.servs[t].statusFd == m.servs[t].statusFd && SameSettings(m.servs[t], m'.servs[t])
  {
    var m1 := StopBegin(m, s, e.now).value;
    StopBeginKeeps(m, s, e.now);
    ReapAllTable(m1, e.deaths);
    ReapAllKeeps(m1, e.deaths);
    var m2 := ReapAll(m1, e.deaths).value;
    assert forall t :: t in m1.servs ==> SameFds(m1.servs[t], m2.servs[t]);
    forall t | t in m1.servs ensures SameSettings(m1.servs[t], m2.servs[t]) { ReapAllSettings(m1, e.deaths, t); }
    LoopEndsExact(m, s, e.now, e.deaths);
    StopEndClean(m2, s);
    assert m2.servs[s].listenFd >= 0 by { assert ServInv(m2, s); }
    StopEndServs(m2, s);
  }

  lemma StopSpares(m: Master, s: int, e: Ending, t: int)
    requires Inv(m) && Ready(m) && s in m.servs && t in m.servs && t != s
    requires Reapable(m.table, e.deaths) && Kids(m.table, s) <= Pids(e.deaths)
    requires Spared(m.table, t, Pids(e.deaths))
    ensures var o := StopService(m, s, e.now, e.deaths);
      o.Fine? && t in o.value.servs && o.value.servs[t] == m.servs[t]
  {
    var m1 := StopBegin(m, s, e.now).value;
    StopBeginKeeps(m, s, e.now);
    ReapAllSpares(m1, e.deaths, t);
    StopParts(m, s, e);
    ReapAllKeeps(m1, e.deaths);
    var m2 := ReapAll(m1, e.deaths).value;
    assert m2.servs[s].listenFd >= 0 by { assert ServInv(m2, s); }
    StopEndServs(m2, s);
  }

  lemma {:induction false} StopAllKeeps(m: Master, ss: seq<int>, env: seq<Ending>)
    requires Inv(m) && Ready(m) && |env| == |ss| && Ends(m, ss, env)
    ensures StopAll(m, ss, env).Fine?
    ensures Stopped(m, StopAll(m, ss, env).value, ss, Dead(env))
    decreases |ss|
  {
    if ss != [] {
      var s, e, o := ss[0], env[0], StopService(m, ss[0], env[0].now, env[0].deaths);
      StopKeeps(m, s, e);
      var m1 := Free(o.value, s);
      StopAllKeeps(m1, ss[1..], env[1..]);
      StoppedFirst(m, m1, StopAll(m1, ss[1..], env[1..]).value, ss, env);
    }
  }

  ghost predicate Stopped(m: Master, m': Master, ss: seq<int>, dead: set<int>) {
    && Inv(m') && Ready(m') && m'.table == m.table - dead
    && (forall s :: s in m'.servs <==> s in m.servs && s !in ss)
    && (forall t :: t in m'.servs ==> SameSettings(m.servs[t], m'.servs[t]))
    && (forall t :: t in m'.servs && Spared(m.table, t, dead) ==> m'.servs[t] == m.servs[t])
  }

  lemma StoppedFirst(m: Master, m1: Master, m': Master, ss: seq<int>, env: seq<Ending>)
    requires |env| == |ss| > 0 && Stopped(m1, m', ss[1..], Dead(env[1..]))
    requires m1.servs.Keys == m.servs.Keys - {ss[0]} && m1.table == m.table - Pids(env[0].deaths)
    requires forall t :: t in m1.servs ==> SameSettings(m.servs[t], m1.servs[t])
    requires forall t :: t in m1.servs && Spared(m.table, t, Pids(env[0].deaths)) ==> m1.servs[t] == m.servs[t]
    ensures Stopped(m, m', ss, Dead(env))
  {
    assert m.table - Pids(env[0].deaths) - Dead(env[1..]) == m.table - Dead(env);
    assert ss == [ss[0]] + ss[1..];
    forall t | t in m'.servs && Spared(m.table, t, Dead(env)) ensures m'.servs[t] == m.servs[t] {
      assert Spared(m.table, t, Pids(env[0].deaths)) && Spared(m1.table, t, Dead(env[1..]));
    }
  }

  // ---------------------------------------------------------------------
  // The calls of master_refresh

  /** The start and restart calls, carried out one after the other. */
  function Perform(m: Master, id: C.Key -> int, calls: seq<C.Call>, fs: seq<Fds>): Outcome
    requires |fs| == |calls|
  {
    if calls == [] then Fine(m)
    else
      var k := |calls| - 1;
      var m1 :- Perform(m, id, calls[..k], fs[..k]);
      var s := id(calls[k].serv.key);
      match calls[k]
      case StartService(_, st) => Start(m1, s, st, fs[k])
      case RestartService(_, st) => if s in m1.servs then Restart(m1, s, st, fs[k]) else Panic
      case StopService(_) => Panic
  }

  /** The manager has just the services of the list. */
  ghost predicate Lists(m: Master, id: C.Key -> int, list: seq<C.Serv>) {
    forall s :: s in m.servs <==> IsListed(id, list, s)
  }

  ghost predicate IsListed(id: C.Key -> int, list: seq<C.Serv>, s: int) {
    exists k :: C.Named(list, k) && id(k) == s
  }

  /** Whether the calls are starts or restarts suits the manager's services. */
  lemma {:induction false} CallsAreEntries(m: Master, id: C.Key -> int, was: seq<C.Serv>, list: seq<C.Serv>,
                                           calls: seq<C.Call>, es: seq<C.Entry>, fs: seq<Fds>)
    requires Injective(id) && Inv(m) && Ready(m) && Lists(m, id, was)
    requires C.AllHandled(calls, es, was, list) && |fs| == |es| && AllNewFds(m, id, es, fs)
    ensures Perform(m, id, calls, fs) == Entries(m, id, es, fs)
    decreases |es|
  {
    if es != [] {
      var k := |es| - 1;
      assert C.AllHandled(calls[..k], es[..k], was, list) by {
        assert forall i :: 0 <= i < k ==> es[..k][..i] == es[..i];
      }
      CallsAreEntries(m, id, was, list, calls[..k], es[..k], fs[..k]);
      EntriesReflected(m, id, es[..k], fs[..k]);
      var m1, key := Entries(m, id, es[..k], fs[..k]).value, es[k].key;
      assert C.Handles(calls[k], es[k], C.Named(was, key) || C.Last(es[..k], key).Some?);
      assert id(key) in m1.servs <==> IsListed(id, was, id(key)) || IsNamed(id, es[..k], id(key));
    }
  }

  function StopIds(id: C.Key -> int, calls: seq<C.Call>): (ss: seq<int>)
    ensures |ss| == |calls|
  {
    seq(|calls|, i requires 0 <= i < |calls| => id(calls[i].serv.key))
  }

  lemma {:induction false} StopsMembers(list: seq<C.Serv>, gone: set<C.Serv>)
    ensures forall n :: n in list && n in gone ==> C.StopService(n) in C.Stops(list, gone)
    ensures forall c :: c in C.Stops(list, gone) ==> c.StopService? && c.serv in list && c.serv in gone
  {
    if list != [] { StopsMembers(list[1..], gone); }
  }

  /** The services to be stopped are those of the manager that no entry names. */
  lemma StopIdsExact(id: C.Key -> int, was: seq<C.Serv>, es: seq<C.Entry>, s: int)
    requires Injective(id)
    ensures s in StopIds(id, C.Stops(was, C.Unnamed(was, es))) <==> IsListed(id, was, s) && !IsNamed(id, es, s)
  {
    var gone := C.Unnamed(was, es);
    var cs := C.Stops(was, gone);
    StopsMembers(was, gone);
    if s in StopIds(id, cs) {
      var i :| 0 <= i < |cs| && StopIds(id, cs)[i] == s;
      assert cs[i] in cs;
      assert C.Named(was, cs[i].serv.key);
    }
    if IsListed(id, was, s) && !IsNamed(id, es, s) {
      var k :| C.Named(was, k) && id(k) == s;
      var n :| n in was && n.key == k;
      var i :| 0 <= i < |cs| && cs[i] == C.StopService(n);
      assert StopIds(id, cs)[i] == s;
    }
  }

  /** Carrying out all calls of a refresh: nothing panics, the invariant is kept,
      the manager has just the services that the entries name, each with the
      settings of the last entry for it, and the children that did not die. A
      service that was there before and lost no child has its counters, flags and
      listen socket still. */
  lemma RefreshServes(m: Master, id: C.Key -> int, was: seq<C.Serv>, list: seq<C.Serv>, made: seq<C.Call>,
                      es: seq<C.Entry>, fs: seq<Fds>, env: seq<Ending>)
    requires Injective(id) && Inv(m) && Ready(m) && Lists(m, id, was)
    requires C.AllHandled(made, es, was, list) && |fs| == |es| && AllNewFds(m, id, es, fs)
    requires Perform(m, id, made, fs).Fine? ==>
      var ss := StopIds(id, C.Stops(was, C.Unnamed(was, es)));
      |env| == |ss| && Ends(Perform(m, id, made, fs).value, ss, env)
    ensures Perform(m, id, made, fs).Fine?
    ensures var m1, ss := Perform(m, id, made, fs).value, StopIds(id, C.Stops(was, C.Unnamed(was, es)));
      StopAll(m1, ss, env).Fine? && Served(m, StopAll(m1, ss, env).value, id, es, Dead(env))
  {
    CallsAreEntries(m, id, was, list, made, es, fs);
    EntriesReflected(m, id, es, fs);
    var m1, ss := Perform(m, id, made, fs).value, StopIds(id, C.Stops(was, C.Unnamed(was, es)));
    StopAllKeeps(m1, ss, env);
    forall s ensures s in ss <==> IsListed(id, was, s) && !IsNamed(id, es, s) { StopIdsExact(id, was, es, s); }
    ServedBoth(m, m1, StopAll(m1, ss, env).value, id, es, ss, Dead(env));
  }

  ghost predicate Served(m: Master, m': Master, id: C.Key -> int, es: seq<C.Entry>, dead: set<int>) {
    && Inv(m') && Ready(m') && m'.table == m.table - dead
    && (forall s :: s in m'.servs <==> IsNamed(id, es, s))
    && (forall k :: C.Last(es, k).Some? ==>
          id(k) in m'.servs && HasSettings(m'.servs[id(k)], C.Last(es, k).value))
    && (forall s :: s in m.servs && s in m'.servs && Spared(m.table, s, dead) ==> SameLife(m.servs[s], m'.servs[s]))
  }

  lemma ServedBoth(m: Master, m1: Master, m': Master, id: C.Key -> int, es: seq<C.Entry>, ss: seq<int>, dead: set<int>)
    requires Reflected(m, m1, id, es) && Stopped(m1, m', ss, dead)
    requires forall s :: s in ss <==> s in m.servs && !IsNamed(id, es, s)
    ensures Served(m, m', id, es, dead)
  {
    forall k | C.Last(es, k).Some?
      ensures id(k) in m'.servs && HasSettings(m'.servs[id(k)], C.Last(es, k).value)
    {
      assert IsNamed(id, es, id(k));
    }
  }
}
