/** The handlers of the process manager as the source has them: methods that
    update MASTER_SERV and MASTER_PROC structures in place. Each is shown to do
    to the manager's state what its function in Master does to the value. */
module MasterServer {
  import opened Timers
  import M = Master
  import S = Services

  /** MASTER_SERV; `id` names the structure. */
  class Serv {
    const id: int
    var throttle: bool
    var listen: bool
    var condwake: bool
    var maxProc: int
    var availProc: int
    var totalProc: int
    var throttleDelay: nat
    var listenFd: int
    var statusFd: int

    function View(): M.Serv
      reads this
    {
      M.Serv(throttle, listen, condwake, maxProc, availProc, totalProc, throttleDelay, listenFd, statusFd)
    }
  }

  /** MASTER_PROC */
  class Proc {
    const pid: int
    const serv: Serv
    var avail: int
    var useCount: int

    constructor (serv: Serv, pid: int)
      ensures this.pid == pid && this.serv == serv && avail == M.STAT_TAKEN && useCount == 0
    {
      this.pid, this.serv := pid, serv;
      avail, useCount := M.STAT_TAKEN, 0;
    }

    function View(): M.Proc
      reads this
    {
      M.Proc(serv.id, avail, useCount)
    }
  }

  class Server {
    ghost var servs: map<int, Serv>   // the services there are
    var table: map<int, Proc>         // master_child_table
    var timers: TimerState
    var reg: map<int, M.Handler>
    const size: nat                   // of the registration table
    ghost var state: M.Master         // all of it, as a value
    ghost var services: set<Serv>     // the structures in servs, and in table
    ghost var procs: set<Proc>

    ghost predicate Valid()
      reads this, services, procs
    {
      && state.servs.Keys == servs.Keys && (forall s :: s in servs ==> ServAgrees(s))
      && state.table.Keys == table.Keys && (forall p :: p in table ==> ProcAgrees(p))
      && state.timers == timers && state.reg == reg && state.size == size
    }

    ghost predicate ServAgrees(s: int)
      requires s in servs && s in state.servs
      reads this, services
    {
      servs[s] in services && servs[s].id == s && state.servs[s] == servs[s].View()
    }

    ghost predicate ProcAgrees(p: int)
      requires p in table && p in state.table
      reads this, procs
    {
      table[p] in procs && table[p].pid == p && Known(table[p].serv) && state.table[p] == table[p].View()
    }

    ghost predicate Known(serv: Serv)
      reads this
    {
      serv.id in servs && servs[serv.id] == serv && serv in services
    }

    ghost predicate Listed(proc: Proc)
      reads this
    {
      proc.pid in table && table[proc.pid] == proc && proc in procs
    }

    /** `ok` is false when the source would have called msg_panic. */
    ghost predicate Matches(o: M.Outcome, ok: bool)
      reads this, services, procs
    {
      ok == o.Fine? && (ok ==> Valid() && state == o.value)
    }

    /** event_enable_rw and event_disable_rw for reading. */
    method EnableRead(fd: int, h: M.Handler) returns (ok: bool)
      requires Valid()
      modifies `reg, `state
      ensures Matches(M.EnableRead(old(state), fd, h), ok)
    {
      ok := fd >= 0;
      if ok {
        if fd < size { reg := reg[fd := h]; }
        state := state.(reg := reg);
      }
    }

    method DisableRead(fd: int) returns (ok: bool)
      requires Valid()
      modifies `reg, `state
      ensures Matches(M.DisableRead(old(state), fd), ok)
    {
      ok := fd >= 0;
      if ok {
        reg := reg - {fd};
        state := state.(reg := reg);
      }
    }

    /** Records a change to one service. */
    ghost method Sync(serv: Serv)
      requires Known(serv) && state.servs.Keys == servs.Keys && state.table.Keys == table.Keys && state.size == size
      requires forall s :: s in servs && s != serv.id ==> ServAgrees(s)
      requires forall p :: p in table ==> ProcAgrees(p)
      modifies `state
      ensures Valid() && state == M.Put(old(state), serv.id, serv.View()).(timers := timers, reg := reg)
    {
      state := M.Put(state, serv.id, serv.View()).(timers := timers, reg := reg);
    }

    /** Records a change to the table. */
    ghost method SyncTable(t: map<int, M.Proc>)
      modifies `state
      ensures state == old(state).(table := t)
    {
      state := state.(table := t);
    }

    /** master_avail_listen */
    method AvailListen(serv: Serv) returns (ok: bool)
      requires Valid() && Known(serv)
      modifies `reg, `state, serv`listen
      ensures Matches(M.AvailListen(old(state), serv.id), ok)
    {
      assert ServAgrees(serv.id);
      ok := true;
      var listenFlag: bool;
      if serv.throttle || serv.availProc > 0 {
        listenFlag := false;
      } else if M.LimitOk(serv.maxProc, serv.totalProc) {
        listenFlag := true;
      } else {
        listenFlag := false;
      }
      if listenFlag && !serv.listen {
        ok := EnableRead(serv.listenFd, M.AvailEvent(serv.id));
        if !ok { return; }
        serv.listen := true;
        Sync(serv);
      } else if !listenFlag && serv.listen {
        ok := DisableRead(serv.listenFd);
        if !ok { return; }
        serv.listen := false;
        Sync(serv);
      }
    }

    /** Records a change to one service and one child. */
    ghost method SyncBoth(serv: Serv, proc: Proc)
      requires Known(serv) && Listed(proc) && Known(proc.serv)
      requires state.servs.Keys == servs.Keys && state.table.Keys == table.Keys
      requires state.timers == timers && state.reg == reg && state.size == size
      requires forall s :: s in servs && s != serv.id ==> ServAgrees(s)
      requires forall p :: p in table && p != proc.pid ==> ProcAgrees(p)
      modifies `state
      ensures Valid()
      ensures state == M.Put(old(state), serv.id, serv.View()).(table := old(state).table[proc.pid := proc.View()])
    {
      state := M.Put(state, serv.id, serv.View()).(table := state.table[proc.pid := proc.View()]);
    }

    /** master_avail_more */
    method AvailMore(serv: Serv, proc: Proc) returns (ok: bool)
      requires Valid() && Known(serv) && Listed(proc)
      modifies `reg, `state, serv`listen, serv`availProc, proc`avail
      ensures Matches(M.AvailMore(old(state), serv.id, proc.pid), ok)
    {
      assert ServAgrees(serv.id) && ProcAgrees(proc.pid);
      if proc.avail == M.STAT_AVAIL { return false; }
      serv.availProc := serv.availProc + 1;
      proc.avail := M.STAT_AVAIL;
      SyncBoth(serv, proc);
      ok := AvailListen(serv);
    }

    /** master_avail_less */
    method AvailLess(serv: Serv, proc: Proc) returns (ok: bool)
      requires Valid() && Known(serv) && Listed(proc)
      modifies `reg, `state, serv`listen, serv`availProc, proc`avail
      ensures Matches(M.AvailLess(old(state), serv.id, proc.pid), ok)
    {
      assert ServAgrees(serv.id) && ProcAgrees(proc.pid);
      if proc.avail != M.STAT_AVAIL { return false; }
      serv.availProc := serv.availProc - 1;
      proc.avail := M.STAT_TAKEN;
      SyncBoth(serv, proc);
      ok := AvailListen(serv);
    }

    /** master_throttle */
    method Throttle(serv: Serv, now: int)
      requires Valid() && Known(serv)
      modifies `timers, `state, serv`throttle
      ensures Valid() && state == M.Throttle(old(state), serv.id, now)
    {
      assert ServAgrees(serv.id);
      if !serv.throttle {
        serv.throttle := true;
        timers := Request(timers, M.UnthrottleKey(serv.id), serv.throttleDelay, now);
        Sync(serv);
      }
    }

    /** master_unthrottle */
    method Unthrottle(serv: Serv) returns (ok: bool)
      requires Valid() && Known(serv)
      modifies `timers, `reg, `state, serv`throttle, serv`listen
      ensures Matches(M.Unthrottle(old(state), serv.id), ok)
    {
      assert ServAgrees(serv.id);
      ok := true;
      if serv.throttle {
        serv.throttle := false;
        timers := Cancel(timers, M.UnthrottleKey(serv.id));
        Sync(serv);
        ok := AvailListen(serv);
      }
    }

    /** binhash_enter of a new MASTER_PROC, and the count of it. */
    method Enter(serv: Serv, pid: int) returns (proc: Proc)
      requires Valid() && Known(serv)
      modifies `state, `table, `procs, serv`totalProc
      ensures Valid() && Listed(proc) && fresh(proc) && proc.serv == serv && proc.pid == pid
      ensures state == M.Entered(old(state), serv.id, pid)
    {
      assert ServAgrees(serv.id);
      proc := new Proc(serv, pid);
      table, procs := table[pid := proc], procs + {proc};
      serv.totalProc := serv.totalProc + 1;
      SyncTable(state.table[pid := proc.View()]);
      Sync(serv);
    }

    method TakeFirst()
      requires Valid() && timers.queue != []
      modifies `timers, `state
      ensures Valid() && state == old(state).(timers := old(state).timers.(queue := old(state).timers.queue[1..]))
    {
      timers := timers.(queue := timers.queue[1..]);
      state := state.(timers := timers);
    }

    /** The timer loop of event_wait: the first entry is taken off before
        master_unthrottle_wrapper is called with its context. */
    method TimerEvent(serv: Serv) returns (ok: bool)
      requires Valid() && Known(serv) && timers.queue != [] && timers.queue[0].key.context == serv.id
      modifies `timers, `reg, `state, serv`throttle, serv`listen
      ensures Matches(M.TimerEvent(old(state)), ok)
    {
      TakeFirst();
      ok := Unthrottle(serv);
    }

    /** The branch of master_spawn that runs in the parent. */
    method Adopt(serv: Serv, pid: int) returns (ok: bool)
      requires Valid() && Known(serv)
      modifies `reg, `state, `table, `procs, serv
      ensures Matches(M.Adopt(old(state), serv.id, pid), ok)
    {
      var proc := Enter(serv, pid);
      ok := AvailMore(serv, proc);
      if ok { ClearCondwake(serv); }
    }

    method ClearCondwake(serv: Serv)
      requires Valid() && Known(serv)
      modifies `state, serv`condwake
      ensures serv.id in old(state).servs
      ensures Valid() && state == M.Put(old(state), serv.id, old(state).servs[serv.id].(condwake := false))
    {
      assert ServAgrees(serv.id);
      if serv.condwake {
        serv.condwake := false;
      }
      Sync(serv);
    }

    /** master_spawn, up to what happens in the child */
    method Spawn(serv: Serv, fork: M.Fork, now: int) returns (ok: bool)
      requires Valid() && Known(serv)
      modifies `timers, `reg, `state, `table, `procs, serv
      ensures Matches(M.Spawn(old(state), serv.id, fork, now), ok)
    {
      assert ServAgrees(serv.id);
      if !M.LimitOk(serv.maxProc, serv.totalProc) || serv.availProc > 0 || serv.throttle {
        return false;
      }
      match fork {
        case Failed =>
          Throttle(serv, now);
          ok := true;
        case Child(pid) =>
          ok := Adopt(serv, pid);
      }
    }

    /** master_avail_event */
    method AvailEvent(serv: Serv, fork: M.Fork, now: int) returns (ok: bool)
      requires Valid() && Known(serv)
      modifies `timers, `reg, `state, `table, `procs, serv
      ensures Matches(M.ConnectionEvent(old(state), serv.id, fork, now), ok)
    {
      assert ServAgrees(serv.id);
      if serv.throttle {
        ok := DisableRead(serv.listenFd);
      } else {
        ok := Spawn(serv, fork, now);
      }
    }

    /** First part of master_delete_child: one process less, and who listens now. */
    method Uncount(proc: Proc) returns (ok: bool)
      requires Valid() && Listed(proc)
      modifies `reg, `state, proc.serv, proc`avail
      ensures proc.serv.id in old(state).servs
      ensures Matches(M.Uncount(old(state), proc.pid), ok)
    {
      var serv := proc.serv;
      assert ProcAgrees(proc.pid) && ServAgrees(serv.id);
      serv.totalProc := serv.totalProc - 1;
      Sync(serv);
      ok := true;
      if proc.avail == M.STAT_AVAIL {
        ok := AvailLess(serv, proc);
      } else if M.LimitOk(serv.maxProc, serv.totalProc) && serv.availProc < 1 {
        ok := AvailListen(serv);
      }
    }

    /** binhash_delete of a child. */
    method Forget(pid: int)
      requires Valid()
      modifies `state, `table
      ensures Valid() && state == old(state).(table := old(state).table - {pid}) && table == old(table) - {pid}
    {
      table := table - {pid};
      SyncTable(state.table - {pid});
    }

    /** master_delete_child */
    method DeleteChild(proc: Proc) returns (ok: bool)
      requires Valid() && Listed(proc)
      modifies `reg, `state, `table, proc.serv, proc`avail
      ensures proc.serv.id in old(state).servs
      ensures Matches(M.DeleteChild(old(state), proc.pid), ok)
      ensures table == old(table) || table == old(table) - {proc.pid}
    {
      assert ProcAgrees(proc.pid) && ServAgrees(proc.serv.id);
      ok := Uncount(proc);
      if ok { Forget(proc.pid); }
    }

    method CountUse(serv: Serv, proc: Proc)
      requires Valid() && Known(serv) && Listed(proc)
      modifies `state, proc`useCount
      ensures Valid() && proc.pid in old(state).table
      ensures var p := old(state).table[proc.pid];
        state == old(state).(table := old(state).table[proc.pid := p.(useCount := p.useCount + 1)])
    {
      assert ServAgrees(serv.id) && ProcAgrees(proc.pid);
      proc.useCount := proc.useCount + 1;
      SyncBoth(serv, proc);
      assert old(state).servs[serv.id := serv.View()] == old(state).servs;
    }

    /** master_status_event, for a complete message */
    method StatusEvent(serv: Serv, pid: int, avail: int) returns (ok: bool)
      requires Valid() && Known(serv)
      modifies `reg, `state, serv, procs
      ensures Matches(M.StatusMessage(old(state), serv.id, pid, avail), ok)
    {
      if pid !in table { return true; }
      var proc := table[pid];
      assert ProcAgrees(pid) && ServAgrees(serv.id) && ServAgrees(proc.serv.id);
      if proc.serv != serv { return false; }
      if proc.avail == avail { return true; }
      if avail == M.STAT_AVAIL {
        ghost var m0 := state;
        CountUse(serv, proc);
        assert M.StatusMessage(m0, serv.id, pid, avail) == M.AvailMore(state, serv.id, pid);
        ok := AvailMore(serv, proc);
      } else if avail == M.STAT_TAKEN {
        ok := AvailLess(serv, proc);
      } else {
        ok := true;
      }
    }

    /** master_status_init; the read end of the new pipe is `fd`. */
    method StatusInit(serv: Serv, fd: int) returns (ok: bool)
      requires Valid() && Known(serv)
      modifies `reg, `state, serv`statusFd
      ensures Matches(M.StatusInit(old(state), serv.id, fd), ok)
    {
      assert ServAgrees(serv.id);
      if serv.statusFd >= 0 { return false; }
      serv.statusFd := fd;
      Sync(serv);
      ok := EnableRead(fd, M.StatusEvent(serv.id));
    }

    /** master_status_cleanup */
    method StatusCleanup(serv: Serv) returns (ok: bool)
      requires Valid() && Known(serv)
      modifies `reg, `state, serv`statusFd
      ensures Matches(M.StatusCleanup(old(state), serv.id), ok)
    {
      assert ServAgrees(serv.id);
      if serv.statusFd < 0 { return false; }
      ok := DisableRead(serv.statusFd);
      if !ok { return; }
      serv.statusFd := -1;
      Sync(serv);
    }

    /** The update branch of master_config, with master_restart_service; the new
        status pipe is `fd`. */
    method Reconfigure(serv: Serv, maxProc: int, delay: nat, condwake: bool, fd: int) returns (ok: bool)
      requires Valid() && Known(serv)
      modifies `reg, `state, serv
      ensures Matches(M.Reconfigure(old(state), serv.id, maxProc, delay, condwake, fd), ok)
    {
      assert ServAgrees(serv.id);
      serv.condwake, serv.maxProc, serv.throttleDelay := condwake, maxProc, delay;
      Sync(serv);
      ok := StatusCleanup(serv);
      if ok { ok := StatusInit(serv, fd); }
    }

    /** master_start_service; the listen socket is `lfd`, the status pipe `sfd`. */
    method StartService(serv: Serv, lfd: int, sfd: int) returns (ok: bool)
      requires Valid() && Known(serv)
      modifies `reg, `state, serv
      ensures Matches(M.StartService(old(state), serv.id, old(state).servs[serv.id], lfd, sfd), ok)
    {
      assert ServAgrees(serv.id);
      serv.listenFd := lfd;
      Sync(serv);
      ok := AvailListen(serv);
      if ok { ok := StatusInit(serv, sfd); }
    }

    /** Only children are lost: no service, and no other entry of the table. */
    twostate predicate OnlyReaps()
      reads this
    {
      && servs == old(servs) && services == old(services) && procs == old(procs)
      && table.Keys <= old(table.Keys) && forall p :: p in table ==> table[p] == old(table[p])
    }

    /** One round of the loop in master_reap_child. */
    method ReapOne(d: S.Death) returns (ok: bool)
      requires Valid()
      modifies `timers, `reg, `state, `table, services, procs
      ensures Matches(M.Reap(old(state), d.pid, d.status, d.now), ok)
      ensures OnlyReaps()
    {
      if d.pid !in table { return false; }
      var proc := table[d.pid];
      var serv := proc.serv;
      assert ProcAgrees(d.pid) && ServAgrees(serv.id);
      if d.status != 0 && proc.useCount == 0 && !serv.throttle {
        Throttle(serv, d.now);
      }
      ok := DeleteChild(proc);
    }

    /** master_reap_child: the loop over what waitpid reports. */
    method ReapChild(ds: seq<S.Death>) returns (ok: bool)
      requires Valid()
      modifies `timers, `reg, `state, `table, services, procs
      ensures Matches(S.ReapAll(old(state), ds), ok)
      ensures OnlyReaps()
    {
      ok := true;
      var i := 0;
      while i < |ds|
        invariant 0 <= i <= |ds| && Valid() && OnlyReaps()
        invariant S.ReapAll(state, ds[i..]) == S.ReapAll(old(state), ds)
      {
        assert ds[i..][0] == ds[i] && ds[i..][1..] == ds[i + 1..];
        ok := ReapOne(ds[i]);
        if !ok { return; }
        i := i + 1;
      }
    }

    /** The kill loop of master_delete_children over `list`, the entries that
        binhash_list gives. */
    method KillChildren(serv: Serv, list: seq<Proc>) returns (killed: set<int>)
      requires Valid() && Known(serv)
      requires (forall proc :: proc in list ==> Listed(proc)) && forall p :: p in table ==> table[p] in list
      ensures killed == M.Kids(state.table, serv.id)
    {
      killed := {};
      var i := 0;
      while i < |list|
        invariant 0 <= i <= |list|
        invariant forall p :: p in killed <==> p in table && table[p].serv == serv && table[p] in list[..i]
      {
        var proc := list[i];
        assert list[..i + 1] == list[..i] + [proc] && Listed(proc);
        if proc.serv == serv { killed := killed + {proc.pid}; }
        forall p | p in table && table[p] == proc ensures p == proc.pid { assert ProcAgrees(p); }
        i := i + 1;
      }
      assert list[..i] == list;
      forall p ensures p in killed <==> p in M.Kids(state.table, serv.id) {
        if p in table { assert ProcAgrees(p) && ServAgrees(serv.id); }
      }
    }

    /** The wait loop of master_delete_children. Each call of master_reap_child
        sees one batch of deaths, and is made only while a child of the service is
        counted; `ended` is false when the batches run out while
        children are left, and `rounds` counts the calls made. */
    method AwaitChildren(serv: Serv, batches: seq<seq<S.Death>>) returns (ok: bool, ended: bool, rounds: nat)
      requires Valid() && Known(serv)
      modifies `timers, `reg, `state, `table, services, procs
      ensures rounds <= |batches| && Matches(S.ReapAll(old(state), Concat(batches[..rounds])), ok)
      ensures ok ==> OnlyReaps() && (ended <==> serv.totalProc <= 0) && (ended || rounds == |batches|)
      ensures !ok ==> ended
      ensures forall k :: 0 <= k < rounds ==> StillWaiting(old(state), serv.id, batches, k)
    {
      ok, rounds := true, 0;
      while serv.totalProc > 0 && rounds < |batches|
        invariant rounds <= |batches| && Valid() && OnlyReaps()
        invariant S.ReapAll(old(state), Concat(batches[..rounds])) == M.Fine(state)
        invariant forall k :: 0 <= k < rounds ==> StillWaiting(old(state), serv.id, batches, k)
        decreases |batches| - rounds
      {
        assert StillWaiting(old(state), serv.id, batches, rounds) by { assert ServAgrees(serv.id); }
        ConcatNext(batches, rounds);
        S.ReapAllConcat(old(state), Concat(batches[..rounds]), batches[rounds]);
        ok := ReapChild(batches[rounds]);
        rounds := rounds + 1;
        if !ok { return ok, true, rounds; }
      }
      ended := serv.totalProc <= 0;
    }

    /** What master_avail_cleanup and master_listen_cleanup do once the children
        are gone. */
    method StopEnd(serv: Serv) returns (ok: bool)
      requires Valid() && Known(serv)
      modifies `timers, `reg, `state, serv
      ensures Matches(M.StopEnd(old(state), serv.id), ok)
    {
      assert ServAgrees(serv.id);
      ok := Unthrottle(serv);
      if !ok { return; }
      assert ServAgrees(serv.id);
      if serv.listen {
        ok := DisableRead(serv.listenFd);
        if !ok { return; }
        serv.listen := false;
      }
      serv.listenFd := -1;
      Sync(serv);
    }

    /** What master_stop_service does before it signals the children. */
    method BeginStop(serv: Serv, now: int) returns (ok: bool)
      requires Valid() && Known(serv)
      modifies `timers, `reg, `state, serv`statusFd, serv`throttle
      ensures Matches(M.StopBegin(old(state), serv.id, now), ok)
      ensures ok ==> state.table == old(state).table
    {
      ok := StatusCleanup(serv);
      if ok { Throttle(serv, now); }
    }

    /** master_stop_service. `list` is what binhash_list gives, `batches` what the
        successive calls of waitpid report; exactly the children of the service
        are sent the signal. The wait loop ends at the first moment at which no
        child is counted; when it does not end, neither does this. */
    method StopService(serv: Serv, now: int, list: seq<Proc>, batches: seq<seq<S.Death>>)
        returns (ok: bool, ended: bool, rounds: nat, killed: set<int>)
      requires Valid() && Known(serv)
      requires (forall proc :: proc in list ==> Listed(proc)) && forall p :: p in table ==> table[p] in list
      modifies `timers, `reg, `state, `table, services, procs
      ensures rounds <= |batches|
      ensures ended ==> Matches(S.StopService(old(state), serv.id, now, Concat(batches[..rounds])), ok)
      ensures ok && ended ==> S.LoopEnds(old(state), serv.id, now, Concat(batches[..rounds]))
      ensures !ended ==> ok && rounds == |batches| && serv.totalProc > 0
      ensures !ended ==> Matches(S.StopWaiting(old(state), serv.id, now, Concat(batches)), ok)
      ensures ok ==> killed == M.Kids(old(state).table, serv.id)
      ensures forall k :: 0 <= k < rounds ==> !S.LoopEnds(old(state), serv.id, now, Concat(batches[..k]))
    {
      rounds, ended, killed := 0, true, {};
      ghost var m0 := state;
      ok := BeginStop(serv, now);
      if !ok { return; }
      killed := KillChildren(serv, list);
      ghost var m1 := state;
      ok, ended, rounds := AwaitChildren(serv, batches);
      forall k | 0 <= k < rounds ensures !S.LoopEnds(m0, serv.id, now, Concat(batches[..k])) {
        assert StillWaiting(m1, serv.id, batches, k);
      }
      assert Matches(S.StopWaiting(m0, serv.id, now, Concat(batches[..rounds])), ok);
      AllBatches(batches);
      if ok && ended {
        assert ServAgrees(serv.id) && S.LoopEnds(m0, serv.id, now, Concat(batches[..rounds]));
        ok := StopEnd(serv);
      }
    }
  }

  /** After the first k batches a child of service s is still counted. */
  ghost predicate StillWaiting(m: M.Master, s: int, batches: seq<seq<S.Death>>, k: nat)
    requires k <= |batches|
  {
    var o := S.ReapAll(m, Concat(batches[..k]));
    o.Fine? && s in o.value.servs && o.value.servs[s].totalProc > 0
  }

  function Concat(batches: seq<seq<S.Death>>): seq<S.Death> {
    if batches == [] then [] else Concat(batches[..|batches| - 1]) + batches[|batches| - 1]
  }

  lemma AllBatches(batches: seq<seq<S.Death>>)
    ensures batches[..|batches|] == batches
  {}

  lemma ConcatNext(batches: seq<seq<S.Death>>, k: nat)
    requires k < |batches|
    ensures Concat(batches[..k + 1]) == Concat(batches[..k]) + batches[k]
  {
    assert batches[..k + 1][..k] == batches[..k];
  }
}
