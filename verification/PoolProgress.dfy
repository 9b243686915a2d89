/** Why the thread pool makes progress: no deadlock while it is kept alive, a
    bounded amount of work between submissions, and so an end to thpool_wait; and
    workers that all leave after a shutdown, so an end to thpool_destroy. */
module PoolProgress {
  import opened ThreadPool

  /** The sum of `weight` over the program counters. */
  function Sum(ws: seq<Pc>, weight: Pc -> nat): nat {
    if ws == [] then 0 else weight(ws[0]) + Sum(ws[1..], weight)
  }

  lemma {:induction false} SumUpdate(ws: seq<Pc>, weight: Pc -> nat, i: nat, pc: Pc)
    requires i < |ws|
    ensures Sum(ws[i := pc], weight) == Sum(ws, weight) - weight(ws[i]) + weight(pc)
  {
    var us := ws[i := pc];
    if i == 0 {
      assert us[1..] == ws[1..];
    } else {
      assert us[1..] == ws[1..][i - 1 := pc];
      SumUpdate(ws[1..], weight, i - 1, pc);
    }
  }

  lemma {:induction false} SumAtMost(ws: seq<Pc>, weight: Pc -> nat, most: nat)
    requires forall pc :: weight(pc) <= most
    ensures Sum(ws, weight) <= most * |ws|
  {
    if ws != [] { SumAtMost(ws[1..], weight, most); }
  }

  // ---------------------------------------------------------------------
  // No deadlock

  /** A worker, or the thread about to post, can go on. */
  ghost predicate CanGoOn(p: Pool) {
    Enabled(p, PushPost) || exists i: nat :: Enabled(p, Work(i))
  }

  /** In any run of a pool with workers that is kept alive and has not faulted,
      some thread can go on as long as a job is queued. */
  lemma RunsGoOn(n: nat, ps: seq<Pool>, steps: seq<Step>, k: nat)
    requires IsRun(n, ps, steps) && k < |ps| && n >= 1
    requires ps[k].keepalive && !ps[k].fault && ps[k].len > 0
    ensures CanGoOn(ps[k])
  {
    RunsAreSound(n, ps, steps, k);
    RunsLoseNobody(n, ps, steps, k);
    QueuedGoesOn(ps[k]);
  }

  lemma QueuedGoesOn(p: Pool)
    requires PoolInv(p) && NoneGone(p) && |p.workers| >= 1 && p.keepalive && !p.fault && p.len > 0
    ensures CanGoOn(p)
  {
    match p.lock
    case Pusher => assert Enabled(p, PushPost);
    case Worker(i) => assert Enabled(p, Work(i));
    case Unlocked =>
      if p.sem == 1 {
        assert Enabled(p, Work(0));
      } else {
        var i :| 0 <= i < |p.workers| && Between(p.workers[i]);
        assert Enabled(p, Work(i));
      }
  }

  /** When nobody can go on, nothing is queued, everybody waits at the semaphore,
      and everything submitted has finished. */
  lemma RestIsQuiet(p: Pool)
    requires PoolInv(p) && NoneGone(p) && |p.workers| >= 1 && p.keepalive && !p.fault && !CanGoOn(p)
    ensures p.len == 0 && p.working == 0 && p.sem == 0 && p.lock.Unlocked?
    ensures (forall i :: 0 <= i < |p.workers| ==> p.workers[i].Waiting?) && AllFinished(p, p.submitted)
  {
    if p.len > 0 { QueuedGoesOn(p); }
    assert !p.lock.Pusher?;
    if p.lock.Worker? { assert Enabled(p, Work(p.lock.id)); }
    forall i: nat | i < |p.workers| ensures p.workers[i].Waiting? && p.sem == 0 { assert !Enabled(p, Work(i)); }
    assert p.workers[0].Waiting?;
    NoneCounted(p.workers);
    QuietMeansFinished(p);
  }

  lemma {:induction false} NoneCounted(ws: seq<Pc>)
    requires forall i :: 0 <= i < |ws| ==> !Counted(ws[i])
    ensures Number(ws, Counted) == 0
  {
    if ws != [] { NoneCounted(ws[1..]); }
  }

  // ---------------------------------------------------------------------
  // A bounded amount of work between submissions

  /** How far a worker is from its next wait, or from its end. */
  function Effort(pc: Pc): nat {
    match pc
    case Gone => 0
    case Waiting => 0
    case Leaving => 1
    case Top => 2
    case Uncounting => 3
    case Running(_) => 4
    case Pulling => 5
    case Counting => 6
    case Woken => 7
    case Posting(_) => 13
  }

  /** The work in sight: of the workers, of a posted semaphore, of a thread about
      to post, and of the queue. */
  function Burden(p: Pool): nat {
    Sum(p.workers, Effort) + (if p.sem == 1 then 8 else 0) + (if p.lock.Pusher? then 9 else 0) + 9 * |p.ring|
  }

  /** A step of a worker, or the post behind a push. */
  predicate Own(st: Step) { st.Work? || st.PushPost? }

  lemma OwnStepLightens(p: Pool, st: Step)
    requires QueueOk(p) && Enabled(p, st) && Own(st)
    ensures Do(p, st).fault || Burden(Do(p, st)) < Burden(p)
  {
    var p' := Do(p, st);
    if st.Work? && !p'.fault {
      assert p'.workers == p.workers[st.id := p'.workers[st.id]];
      SumUpdate(p.workers, Effort, st.id, p'.workers[st.id]);
    }
  }

  /** Steps that bring no work: neither a submission nor a post of all. */
  predicate Quiet(st: Step) { !st.Push? && !st.PostAll? }

  lemma QuietStepKeeps(p: Pool, st: Step)
    requires Enabled(p, st) && Quiet(st) && !Own(st)
    ensures Burden(Do(p, st)) <= Burden(p) && !Do(p, st).fault
  {}

  function OwnSteps(steps: seq<Step>): nat {
    if steps == [] then 0 else OwnSteps(steps[..|steps| - 1]) + if Own(steps[|steps| - 1]) then 1 else 0
  }

  lemma OwnStepsNext(steps: seq<Step>, c: nat, k: nat)
    requires c <= k < |steps|
    ensures OwnSteps(steps[c..k + 1]) == OwnSteps(steps[c..k]) + if Own(steps[k]) then 1 else 0
  {
    assert steps[c..k + 1][..k - c] == steps[c..k];
  }

  /** As long as nothing is submitted, workers and posts take no more steps than
      the work in sight, in any run from any of its states. */
  lemma {:induction false} RunsTire(n: nat, ps: seq<Pool>, steps: seq<Step>, c: nat, k: nat)
    requires IsRun(n, ps, steps) && c <= k < |ps|
    requires forall i :: c <= i < k ==> Quiet(steps[i])
    ensures OwnSteps(steps[c..k]) + (if ps[k].fault then 0 else Burden(ps[k]))
         <= Burden(ps[c]) + if ps[k].fault then 1 else 0
  {
    if c < k {
      var i := k - 1;
      RunsTire(n, ps, steps, c, i);
      RunsAreSound(n, ps, steps, i);
      assert Linked(ps, steps, i);
      OwnStepsNext(steps, c, i);
      if Own(steps[i]) {
        OwnStepLightens(ps[i], steps[i]);
      } else {
        QuietStepKeeps(ps[i], steps[i]);
      }
    }
  }

  lemma BurdenAtMost(p: Pool)
    ensures Burden(p) <= 13 * |p.workers| + 9 * |p.ring| + 17
  {
    SumAtMost(p.workers, Effort, 13);
  }

  // ---------------------------------------------------------------------
  // thpool_wait ends

  ghost predicate Calm(p: Pool) { !p.fault && p.len == 0 && p.working == 0 }

  /** A caller that reads nothing but zeros returns, after one or two reads. */
  lemma CalmReturns(p: Pool, w: nat)
    requires Calm(p) && w in p.waiters && !p.waiters[w].Returned?
    ensures Enabled(p, WaitRead(w))
    ensures var p1 := Do(p, WaitRead(w));
      if p.waiters[w].ReadWorking? then p1.waiters[w].Returned?
      else Calm(p1) && Enabled(p1, WaitRead(w)) && Do(p1, WaitRead(w)).waiters[w].Returned?
  {}

  /** Over runs: a caller has returned after its second read at the latest, if no
      job is queued and nobody works at these reads. */
  lemma {:induction false} SecondReadReturns(n: nat, ps: seq<Pool>, steps: seq<Step>, w: nat, a: nat, b: nat)
    requires IsRun(n, ps, steps) && a < b < |steps| && steps[a] == WaitRead(w) && steps[b] == WaitRead(w)
    requires Calm(ps[a]) && Calm(ps[b])
    requires forall i :: a < i < b ==> steps[i] != WaitCall(w) && steps[i] != WaitRead(w)
    ensures w in ps[b + 1].waiters && ps[b + 1].waiters[w].Returned?
  {
    assert Linked(ps, steps, a) && Linked(ps, steps, b);
    WaiterStays(n, ps, steps, w, a + 1, b);
  }

  lemma {:induction false} WaiterStays(n: nat, ps: seq<Pool>, steps: seq<Step>, w: nat, a: nat, b: nat)
    requires IsRun(n, ps, steps) && a <= b < |ps| && w in ps[a].waiters
    requires forall i :: a <= i < b ==> steps[i] != WaitCall(w) && steps[i] != WaitRead(w)
    ensures w in ps[b].waiters && ps[b].waiters[w] == ps[a].waiters[w]
  {
    if a < b {
      WaiterStays(n, ps, steps, w, a, b - 1);
      assert Linked(ps, steps, b - 1);
    }
  }

  /** What holds in every state of a run that is kept alive. */
  ghost predicate Alive(p: Pool) { PoolInv(p) && NoneGone(p) && p.keepalive && |p.workers| >= 1 }

  lemma OwnKeepsAlive(p: Pool, st: Step)
    requires Alive(p) && Enabled(p, st) && (Own(st) || st.WaitRead?)
    ensures Alive(Do(p, st))
  {
    PoolStep(p, st);
    NobodyGoes(p, st);
  }

  ghost predicate OnlyOwn(steps: seq<Step>) { forall st :: st in steps ==> Own(st) }

  lemma PathCons(p: Pool, st: Step, ps: seq<Pool>, steps: seq<Step>)
    requires IsPath(ps, steps) && Enabled(p, st) && ps[0] == Do(p, st)
    ensures IsPath([p] + ps, [st] + steps) && ([p] + ps)[|steps| + 1] == ps[|steps|]
  {
    var qs, ts := [p] + ps, [st] + steps;
    forall i | 0 <= i < |ts| ensures Linked(qs, ts, i) {
      if i > 0 { assert Linked(ps, steps, i - 1); }
    }
  }

  /** From any such state, letting workers and posts go on leads to rest. */
  lemma {:induction false} Drain(p: Pool) returns (ps: seq<Pool>, steps: seq<Step>)
    requires Alive(p)
    ensures IsPath(ps, steps) && ps[0] == p && OnlyOwn(steps)
    ensures var q := ps[|steps|]; q.waiters == p.waiters && (q.fault || (Alive(q) && !CanGoOn(q)))
    decreases !p.fault, Burden(p)
  {
    if p.fault || !CanGoOn(p) {
      ps, steps := [p], [];
    } else {
      var st := Next(p);
      OwnStepLightens(p, st);
      OwnKeepsAlive(p, st);
      var qs, ts := Drain(Do(p, st));
      ps, steps := [p] + qs, [st] + ts;
      PathCons(p, st, qs, ts);
    }
  }

  lemma Next(p: Pool) returns (st: Step)
    requires CanGoOn(p)
    ensures Own(st) && Enabled(p, st)
  {
    if Enabled(p, PushPost) {
      st := PushPost;
    } else {
      var i: nat :| Enabled(p, Work(i));
      st := Work(i);
    }
  }

  /** The end of thpool_wait can be reached from every state of every run that is
      kept alive: workers and posts go on until they rest, and then the caller
      returns, unless the pool has faulted. */
  lemma WaitEnds(n: nat, ps: seq<Pool>, steps: seq<Step>, k: nat, w: nat) returns (qs: seq<Pool>, ts: seq<Step>)
    requires IsRun(n, ps, steps) && k < |ps| && n >= 1 && ps[k].keepalive
    requires w in ps[k].waiters && !ps[k].waiters[w].Returned?
    ensures IsPath(qs, ts) && qs[0] == ps[k] && forall st :: st in ts ==> Own(st) || st == WaitRead(w)
    ensures var q := qs[|ts|];
      q.fault || (w in q.waiters && q.waiters[w].Returned? && AllFinished(q, ps[k].submitted))
  {
    RunsAreSound(n, ps, steps, k);
    RunsLoseNobody(n, ps, steps, k);
    qs, ts := Drain(ps[k]);
    DrainSubmits(qs, ts, |ts|);
    if !qs[|ts|].fault {
      RestIsQuiet(qs[|ts|]);
      qs, ts := ReadOn(qs, ts, w);
      if !qs[|ts|].waiters[w].Returned? { qs, ts := ReadOn(qs, ts, w); }
    }
  }

  lemma {:induction false} DrainSubmits(ps: seq<Pool>, steps: seq<Step>, k: nat)
    requires IsPath(ps, steps) && OnlyOwn(steps) && k <= |steps|
    ensures ps[k].submitted == ps[0].submitted
  {
    if k > 0 {
      DrainSubmits(ps, steps, k - 1);
      assert Linked(ps, steps, k - 1) && steps[k - 1] in steps;
    }
  }

  lemma PathSnoc(ps: seq<Pool>, steps: seq<Step>, st: Step)
    requires IsPath(ps, steps) && Enabled(ps[|steps|], st)
    ensures IsPath(ps + [Do(ps[|steps|], st)], steps + [st])
  {
    var qs, ts := ps + [Do(ps[|steps|], st)], steps + [st];
    forall i | 0 <= i < |ts| ensures Linked(qs, ts, i) {
      if i < |steps| { assert Linked(ps, steps, i); }
    }
  }

  /** One more read by caller w at rest. */
  lemma ReadOn(ps: seq<Pool>, steps: seq<Step>, w: nat) returns (qs: seq<Pool>, ts: seq<Step>)
    requires IsPath(ps, steps) && Calm(ps[|steps|]) && w in ps[|steps|].waiters && !ps[|steps|].waiters[w].Returned?
    ensures IsPath(qs, ts) && qs[0] == ps[0] && ts == steps + [WaitRead(w)]
    ensures qs[|ts|] == Do(ps[|steps|], WaitRead(w))
  {
    PathSnoc(ps, steps, WaitRead(w));
    qs, ts := ps + [Do(ps[|steps|], WaitRead(w))], steps + [WaitRead(w)];
  }

  // ---------------------------------------------------------------------
  // Everybody leaves after a shutdown

  /** How many steps a worker takes at most once the pool is not kept alive. */
  function Rank(pc: Pc): nat {
    match pc
    case Gone => 0
    case Leaving => 1
    case Top => 2
    case Woken => 3
    case Uncounting => 3
    case Waiting => 4
    case Running(_) => 4
    case Posting(_) => 5
    case Pulling => 6
    case Counting => 7
  }

  function Remaining(p: Pool): nat { Sum(p.workers, Rank) }

  /** Whatever else happens, only workers take workers further, and every step
      takes one of them closer to its end. */
  lemma ShutdownStep(p: Pool, st: Step)
    requires Enabled(p, st) && !p.keepalive
    ensures !Do(p, st).keepalive && (Do(p, st).fault ==> st.Work?)
    ensures if st.Work? && !Do(p, st).fault then Remaining(Do(p, st)) < Remaining(p)
            else Remaining(Do(p, st)) == Remaining(p)
  {
    var p' := Do(p, st);
    if st.Work? && !p'.fault {
      assert p'.workers == p.workers[st.id := p'.workers[st.id]];
      SumUpdate(p.workers, Rank, st.id, p'.workers[st.id]);
    }
  }

  function WorkSteps(steps: seq<Step>): nat {
    if steps == [] then 0 else WorkSteps(steps[..|steps| - 1]) + if steps[|steps| - 1].Work? then 1 else 0
  }

  /** After a shutdown all workers together take at most seven steps each, in any
      run, however many jobs are queued. */
  lemma {:induction false} RunsWindDown(n: nat, ps: seq<Pool>, steps: seq<Step>, c: nat, k: nat)
    requires IsRun(n, ps, steps) && c <= k < |ps| && !ps[c].keepalive
    ensures !ps[k].keepalive
    ensures WorkSteps(steps[c..k]) + Remaining(ps[k]) <= Remaining(ps[c]) + if ps[k].fault then 1 else 0
    ensures Remaining(ps[c]) <= 7 * n
  {
    if c < k {
      var i := k - 1;
      RunsWindDown(n, ps, steps, c, i);
      assert Linked(ps, steps, i);
      ShutdownStep(ps[i], steps[i]);
      assert steps[c..k][..i - c] == steps[c..i];
    }
    RunsAreSound(n, ps, steps, c);
    SumAtMost(ps[c].workers, Rank, 7);
  }

  /** A pool is destroyed only when all its workers have left. */
  ghost predicate DestroyedLast(p: Pool) { p.destroyed ==> p.alive == 0 && !p.keepalive }

  lemma DestroyedStep(p: Pool, st: Step)
    requires CountsOk(p) && DestroyedLast(p) && Enabled(p, st)
    ensures DestroyedLast(Do(p, st))
  {
    if st.Work? && p.workers[st.id].Leaving? { NumberPositive(p.workers, NotGone, st.id); }
  }

  lemma {:induction false} RunsDestroyLast(n: nat, ps: seq<Pool>, steps: seq<Step>, k: nat)
    requires IsRun(n, ps, steps) && k < |ps|
    ensures DestroyedLast(ps[k])
  {
    if k > 0 {
      RunsDestroyLast(n, ps, steps, k - 1);
      RunsAreSound(n, ps, steps, k - 1);
      assert Linked(ps, steps, k - 1);
      DestroyedStep(ps[k - 1], steps[k - 1]);
    }
  }

  lemma {:induction false} SomebodyLeft(ws: seq<Pc>) returns (i: nat)
    requires Number(ws, NotGone) > 0
    ensures i < |ws| && NotGone(ws[i])
  {
    if NotGone(ws[0]) {
      i := 0;
    } else {
      i := SomebodyLeft(ws[1..]);
      i := i + 1;
    }
  }

  /** What holds in every state of a run after a shutdown. */
  ghost predicate Ending(p: Pool) { PoolInv(p) && DestroyedLast(p) && !p.keepalive }

  /** What thpool_destroy waits for. */
  predicate Ended(p: Pool) { p.alive == 0 && p.lock.Unlocked? }

  /** The steps of workers, the post behind a push, and the posts of thpool_destroy. */
  predicate Winding(st: Step) { Own(st) || st.PostAll? }

  /** Until everybody has left, a worker can go on, if need be after such a post. */
  lemma NextToLeave(p: Pool) returns (st: Step)
    requires Ending(p) && !p.fault && !Ended(p)
    ensures Winding(st) && Enabled(p, st)
    ensures st.PostAll? ==> p.sem != 1 && p.lock.Unlocked? && Do(p, st).sem == 1
  {
    if p.lock.Pusher? {
      st := PushPost;
    } else if p.lock.Worker? {
      st := Work(p.lock.id);
    } else {
      var i := SomebodyLeft(p.workers);
      st := if p.workers[i].Waiting? && p.sem != 1 then PostAll else Work(i);
    }
  }

  lemma WindingKeeps(p: Pool, st: Step)
    requires Ending(p) && Enabled(p, st) && Winding(st)
    ensures Ending(Do(p, st))
  {
    PoolStep(p, st);
    DestroyedStep(p, st);
  }

  ghost predicate OnlyWinding(steps: seq<Step>) { forall st :: st in steps ==> Winding(st) }

  lemma {:induction false} WindDown(p: Pool) returns (ps: seq<Pool>, steps: seq<Step>)
    requires Ending(p)
    ensures IsPath(ps, steps) && ps[0] == p && OnlyWinding(steps)
    ensures var q := ps[|steps|]; Ending(q) && q.destroyed == p.destroyed && (q.fault || Ended(q))
    decreases !p.fault, Remaining(p), p.lock.Pusher?, p.sem != 1
  {
    if p.fault || Ended(p) {
      ps, steps := [p], [];
    } else {
      var st := NextToLeave(p);
      ShutdownStep(p, st);
      WindingKeeps(p, st);
      var qs, ts := WindDown(Do(p, st));
      ps, steps := [p] + qs, [st] + ts;
      PathCons(p, st, qs, ts);
    }
  }

  /** The end of thpool_destroy can be reached from every state of every run: after
      the shutdown workers go on, woken by its posts, until all of them have left and
      the queue is cleared, or one has faulted. Nothing is left queued, and every
      job has finished or been thrown away. */
  lemma DestroyEnds(n: nat, ps: seq<Pool>, steps: seq<Step>, k: nat) returns (qs: seq<Pool>, ts: seq<Step>)
    requires IsRun(n, ps, steps) && k < |ps| && !ps[k].fault && !ps[k].destroyed
    ensures IsPath(qs, ts) && qs[0] == ps[k] && forall st :: st in ts ==> Winding(st) || st.Shutdown? || st.Clear?
    ensures var q := qs[|ts|];
      q.fault || (q.destroyed && AllLeft(q) && q.ring == [] && q.len == 0 && q.sem == 0 && AllFinished(q, q.submitted))
  {
    RunsAreSound(n, ps, steps, k);
    RunsDestroyLast(n, ps, steps, k);
    var p := Do(ps[k], Shutdown);
    assert Ending(p) by { PoolStep(ps[k], Shutdown); }
    qs, ts := WindDown(p);
    PathCons(ps[k], Shutdown, qs, ts);
    qs, ts := [ps[k]] + qs, [Shutdown] + ts;
    var q := qs[|ts|];
    if !q.fault {
      EverybodyLeft(q);
      PathSnoc(qs, ts, Clear);
      qs, ts := qs + [Do(q, Clear)], ts + [Clear];
      PoolStep(q, Clear);
      QuietMeansFinished(Do(q, Clear));
    }
  }

  predicate AllLeft(p: Pool) { forall i :: 0 <= i < |p.workers| ==> p.workers[i].Gone? }

  lemma EverybodyLeft(p: Pool)
    requires CountsOk(p) && p.alive == 0
    ensures AllLeft(p) && p.working == 0
  {
    forall i | 0 <= i < |p.workers| ensures p.workers[i].Gone? {
      if NotGone(p.workers[i]) { NumberPositive(p.workers, NotGone, i); }
    }
    NoneCounted(p.workers);
  }
}
