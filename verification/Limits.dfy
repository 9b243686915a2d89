/** The limit on the number of children, over whole runs: it is respected, and
    registered sockets are safe to serve, exactly as long as reloads fit. */
module Limits {
  import opened Master
  import opened Services
  import opened Protocol
  import opened Coverage

  /** The reloads among the first n steps all fit. */
  ghost predicate Fitting(ws: seq<World>, steps: seq<Step>, n: nat)
    requires n <= |steps| && |steps| < |ws|
  {
    forall i :: 0 <= i < n ==> Fits(ws[i], steps[i])
  }

  /** A reload that leaves max_proc as it was fits. */
  lemma SameLimitFits(w: World, st: Step)
    requires WorldInv(w) && AllFitted(w) && st.Reload? && st.serv in w.m.servs
    requires st.maxProc == w.m.servs[st.serv].maxProc
    ensures Fits(w, st)
  {
    assert Fitted(w.m.servs[st.serv]);
  }

  lemma {:induction false} FittedUpTo(ws: seq<World>, steps: seq<Step>, n: nat)
    requires IsRun(ws, steps) && n < |ws| && Fitting(ws, steps, n)
    ensures AllFitted(ws[n])
  {
    if n > 0 {
      FittedUpTo(ws, steps, n - 1);
      RunStep(ws, steps, n - 1);
    }
  }

  /** In all states of a run no service exceeds its limit, and LISTEN is set where
      a child is wanted and only where there is room for one, exactly when all
      reloads of the run fit. */
  lemma RunsFittedExact(ws: seq<World>, steps: seq<Step>)
    requires IsRun(ws, steps)
    ensures (forall n :: 0 <= n < |ws| ==> AllFitted(ws[n])) <==> Fitting(ws, steps, |steps|)
  {
    if Fitting(ws, steps, |steps|) {
      forall n | 0 <= n < |ws| ensures AllFitted(ws[n]) { FittedUpTo(ws, steps, n); }
    }
    if forall n :: 0 <= n < |ws| ==> AllFitted(ws[n]) {
      forall n | 0 <= n < |steps| ensures Fits(ws[n], steps[n]) {
        RunStep(ws, steps, n);
        assert AllFitted(ws[n]) && AllFitted(ws[n + 1]);
      }
    }
  }

  /** A connection event whose socket is registered at that moment is fatal
      exactly when a reload has taken the room that LISTEN promises. */
  lemma WatchedPanicExact(ws: seq<World>, steps: seq<Step>, n: nat, st: Step)
    requires IsRun(ws, steps) && n < |ws| && Enabled(ws[n], st)
    requires st.Connect? && Watched(ws[n].m, st.serv)
    ensures var sv := ws[n].m.servs[st.serv];
      Do(ws[n], st).Crash? <==> !sv.throttle && !LimitOk(sv.maxProc, sv.totalProc)
  {
    RunsPanicExact(ws, steps, n, st);
    RunsAreSafe(ws, steps, n);
    assert ServInv(ws[n].m, st.serv);
    assert ws[n].m.servs[st.serv].listenFd in ws[n].m.reg;
  }

  /** Nothing ends a manager whose reloads fit, if it dispatches connection events
      only for sockets registered at that moment, and children name only children
      of their own service. */
  lemma RunsNeverPanic(ws: seq<World>, steps: seq<Step>, n: nat, st: Step)
    requires IsRun(ws, steps) && n < |ws| && Fitting(ws, steps, n) && Enabled(ws[n], st)
    requires st.Connect? ==> Watched(ws[n].m, st.serv)
    requires forall s, i :: s in ws[n].pipes && 0 <= i < |ws[n].pipes[s]| ==>
      OwnPipe(ws[n].m, s, ws[n].pipes[s][i])
    ensures Do(ws[n], st).Next?
  {
    RunsPanicExact(ws, steps, n, st);
    FittedUpTo(ws, steps, n);
    if st.Connect? {
      WatchedPanicExact(ws, steps, n, st);
      assert Fitted(ws[n].m.servs[st.serv]);
      RunsAreSafe(ws, steps, n);
      assert ServInv(ws[n].m, st.serv);
    }
    if st.Deliver? { assert OwnPipe(ws[n].m, st.serv, ws[n].pipes[st.serv][0]); }
  }

  /** A message from a child the manager knows is in that child's own pipe. */
  predicate OwnPipe(m: Master, s: int, msg: Msg) {
    msg.pid in m.table ==> m.table[msg.pid].serv == s
  }
}
