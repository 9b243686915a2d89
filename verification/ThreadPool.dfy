/** The thread pool of src/util/thpool.c as a concurrent step system: every
    critical section and every unsynchronised read is one atomic step of one
    thread. Jobs are numbered in the order in which they are submitted. */
module ThreadPool {
  import opened Seqs

  /** Where a worker stands in thpool_thread_do. */
  datatype Pc =
    | Top                 // about to test threads_keepalive in the loop condition
    | Waiting             // in thpool_bsem_wait
    | Woken               // past the wait, about to test threads_keepalive again
    | Counting            // about to count itself as working
    | Pulling             // about to pull a job under rwmutex
    | Posting(job: nat)   // has pulled one of several jobs, about to post, holds rwmutex
    | Running(job: nat)
    | Uncounting          // about to count itself as no longer working
    | Leaving             // about to count itself as no longer alive
    | Gone

  /** Who holds rwmutex between two steps. */
  datatype Lock = Unlocked | Pusher | Worker(id: nat)

  /** Where a caller of thpool_wait stands: it reads len first, and the number of
      working threads only if len was 0. */
  datatype Waiter = ReadLen | ReadWorking | Returned

  datatype Pool = Pool(
    ring: seq<nat>, len: int, sem: int, lock: Lock,
    keepalive: bool, working: int, alive: int, workers: seq<Pc>,
    waiters: map<nat, Waiter>, destroyed: bool, fault: bool,
    // history: number of submissions, jobs pulled, thrown away by destroy, and finished
    submitted: nat, pulled: seq<nat>, dropped: seq<nat>, finished: set<nat>)

  datatype Step =
    | Push | PushPost
    | Work(id: nat)
    | Shutdown | PostAll | Clear
    | WaitCall(caller: nat) | WaitRead(caller: nat)

  predicate Enabled(p: Pool, st: Step) {
    !p.fault &&
    match st
    case Push => p.lock.Unlocked? && !p.destroyed
    case PushPost => p.lock.Pusher?
    case Work(i) =>
      i < |p.workers| &&
      (match p.workers[i]
       case Waiting => p.sem == 1
       case Pulling => p.lock.Unlocked?
       case Gone => false
       case _ => true)
    case Shutdown => !p.destroyed
    case PostAll => !p.keepalive && !p.destroyed
    case Clear => !p.keepalive && p.alive == 0 && p.lock.Unlocked? && !p.destroyed
    case WaitCall(w) => w in p.waiters ==> p.waiters[w].Returned?
    case WaitRead(w) => w in p.waiters && !p.waiters[w].Returned?
  }

  function At(p: Pool, i: nat, pc: Pc): Pool
    requires i < |p.workers|
  {
    p.(workers := p.workers[i := pc])
  }

  /** thpool_jobqueue_pull. On an empty ring it detaches the list head itself. */
  function Pull(p: Pool, i: nat): Pool
    requires i < |p.workers|
  {
    if p.ring == [] then p.(fault := true)
    else
      var job := p.ring[0];
      var q := p.(ring := p.ring[1..], pulled := p.pulled + [job]);
      if p.len == 0 then At(q, i, Running(job))
      else if p.len == 1 then At(q, i, Running(job)).(len := 0)
      else At(q, i, Posting(job)).(len := p.len - 1, lock := Worker(i))
  }

  function WorkOn(p: Pool, i: nat): Pool
    requires Enabled(p, Work(i))
  {
    match p.workers[i]
    case Top => At(p, i, if p.keepalive then Waiting else Leaving)
    case Waiting => At(p, i, Woken).(sem := 0)
    case Woken => At(p, i, if p.keepalive then Counting else Top)
    case Counting => At(p, i, Pulling).(working := p.working + 1)
    case Pulling => Pull(p, i)
    case Posting(job) => At(p, i, Running(job)).(sem := 1, lock := Unlocked)
    case Running(job) => At(p, i, Uncounting).(finished := p.finished + {job})
    case Uncounting => At(p, i, Top).(working := p.working - 1)
    case Leaving => At(p, i, Gone).(alive := p.alive - 1)
  }

  function Do(p: Pool, st: Step): Pool
    requires Enabled(p, st)
  {
    match st
    case Push =>
      p.(ring := p.ring + [p.submitted], len := p.len + 1, lock := Pusher, submitted := p.submitted + 1)
    case PushPost => p.(sem := 1, lock := Unlocked)
    case Work(i) => WorkOn(p, i)
    case Shutdown => p.(keepalive := false)
    case PostAll => p.(sem := 1)
    case Clear => p.(ring := [], len := 0, sem := 0, destroyed := true, dropped := p.ring)
    case WaitCall(w) => p.(waiters := p.waiters[w := ReadLen])
    case WaitRead(w) => p.(waiters := p.waiters[w := Waited(p, p.waiters[w])])
  }

  /** One read of len, or of the number of working threads. */
  function Waited(p: Pool, w: Waiter): Waiter {
    if w.ReadLen? then (if p.len != 0 then ReadLen else ReadWorking)
    else if p.working != 0 then ReadLen else Returned
  }

  /** What thpool_init returns. */
  function Init(n: nat): Pool {
    Pool([], 0, 0, Unlocked, true, 0, n, seq(n, _ => Top), map[], false, false, 0, [], [], {})
  }

  ghost predicate IsPath(ps: seq<Pool>, steps: seq<Step>) {
    |ps| == |steps| + 1 && forall i :: 0 <= i < |steps| ==> Linked(ps, steps, i)
  }

  ghost predicate IsRun(n: nat, ps: seq<Pool>, steps: seq<Step>) {
    IsPath(ps, steps) && ps[0] == Init(n)
  }

  predicate Linked(ps: seq<Pool>, steps: seq<Step>, i: nat)
    requires i < |steps| < |ps|
  {
    Enabled(ps[i], steps[i]) && ps[i + 1] == Do(ps[i], steps[i])
  }

  // ---------------------------------------------------------------------
  // The invariant of every interleaving

  predicate Counted(pc: Pc) { pc.Pulling? || pc.Posting? || pc.Running? || pc.Uncounting? }

  predicate Between(pc: Pc) { pc.Woken? || pc.Counting? || pc.Pulling? }

  predicate NotGone(pc: Pc) { !pc.Gone? }

  predicate HeldBy(p: Pool, i: int, job: nat) {
    0 <= i < |p.workers| && (p.workers[i] == Posting(job) || p.workers[i] == Running(job))
  }

  function Number(ws: seq<Pc>, sort: Pc -> bool): nat {
    if ws == [] then 0 else (if sort(ws[0]) then 1 else 0) + Number(ws[1..], sort)
  }

  lemma {:induction false} NumberUpdate(ws: seq<Pc>, sort: Pc -> bool, i: nat, pc: Pc)
    requires i < |ws|
    ensures Number(ws[i := pc], sort)
         == Number(ws, sort) - (if sort(ws[i]) then 1 else 0) + (if sort(pc) then 1 else 0)
  {
    var us := ws[i := pc];
    if i == 0 {
      assert us[1..] == ws[1..];
    } else {
      assert us[1..] == ws[1..][i - 1 := pc];
      NumberUpdate(ws[1..], sort, i - 1, pc);
    }
  }

  lemma {:induction false} NumberPositive(ws: seq<Pc>, sort: Pc -> bool, i: nat)
    requires i < |ws| && sort(ws[i])
    ensures Number(ws, sort) > 0
  {
    if i > 0 { NumberPositive(ws[1..], sort, i - 1); }
  }

  ghost predicate CountsOk(p: Pool) {
    && p.working == Number(p.workers, Counted)
    && p.alive == Number(p.workers, NotGone)
  }

  ghost predicate QueueOk(p: Pool) {
    && p.len == |p.ring| && 0 <= p.sem <= 1
    && p.pulled + p.dropped + p.ring == Upto(p.submitted)
    && (p.dropped != [] ==> p.destroyed) && (p.destroyed ==> p.ring == [])
  }

  ghost predicate LockOk(p: Pool) {
    && (p.lock.Worker? ==> p.lock.id < |p.workers| && p.workers[p.lock.id].Posting?)
    && forall i :: 0 <= i < |p.workers| && p.workers[i].Posting? ==> p.lock == Worker(i)
  }

  /** Every pulled job is finished or held by one worker, never both. */
  ghost predicate JobsOk(p: Pool) {
    && (forall j :: j in p.pulled && j !in p.finished ==> exists i :: HeldBy(p, i, j))
    && (forall i, j :: HeldBy(p, i, j) ==> j in p.pulled && j !in p.finished)
    && (forall i, k, j :: HeldBy(p, i, j) && HeldBy(p, k, j) ==> i == k)
    && (forall j :: j in p.finished ==> j in p.pulled)
  }

  /** No lost wakeup: while the pool is alive, a queued job has a posted semaphore,
      a worker on its way to the queue, or somebody about to post. */
  ghost predicate WakeupOk(p: Pool) {
    p.keepalive && p.len > 0 ==>
      p.sem == 1 || p.lock != Unlocked || exists i :: 0 <= i < |p.workers| && Between(p.workers[i])
  }

  ghost predicate PoolInv(p: Pool) {
    CountsOk(p) && QueueOk(p) && LockOk(p) && JobsOk(p) && WakeupOk(p)
  }

  lemma CountsStep(p: Pool, st: Step)
    requires CountsOk(p) && Enabled(p, st)
    ensures CountsOk(Do(p, st))
  {
    if st.Work? {
      var p' := Do(p, st);
      if p'.workers != p.workers {
        assert p'.workers == p.workers[st.id := p'.workers[st.id]];
        NumberUpdate(p.workers, Counted, st.id, p'.workers[st.id]);
        NumberUpdate(p.workers, NotGone, st.id, p'.workers[st.id]);
      }
    }
  }

  lemma QueueStep(p: Pool, st: Step)
    requires QueueOk(p) && Enabled(p, st)
    ensures QueueOk(Do(p, st))
  {
    var p' := Do(p, st);
    var whole := p.pulled + p.dropped + p.ring;
    match st
    case Push =>
      assert Upto(p.submitted + 1) == Upto(p.submitted) + [p.submitted];
      assert p'.pulled + p'.dropped + p'.ring == whole + [p.submitted];
    case Work(i) =>
      if p.workers[i].Pulling? && p.ring != [] {
        assert p'.pulled + p'.dropped + p'.ring == whole;
      }
    case Clear =>
      assert p'.pulled + p'.dropped + p'.ring == whole;
    case _ =>
  }

  lemma LockStep(p: Pool, st: Step)
    requires LockOk(p) && Enabled(p, st)
    ensures LockOk(Do(p, st))
  {}

  /** Jobs in the ring have not been pulled. */
  lemma RingIsNew(p: Pool)
    requires QueueOk(p) && p.ring != []
    ensures p.ring[0] !in p.pulled && p.ring[0] < p.submitted
  {
    var s := p.pulled + p.dropped + p.ring;
    assert s[|p.pulled| + |p.dropped|] == p.ring[0];
    forall k | 0 <= k < |p.pulled| ensures p.pulled[k] != p.ring[0] {
      assert s[k] == p.pulled[k];
    }
  }

  lemma JobsPull(p: Pool, i: nat)
    requires QueueOk(p) && JobsOk(p) && Enabled(p, Work(i)) && p.workers[i].Pulling? && p.ring != []
    ensures JobsOk(Do(p, Work(i)))
  {
    var p' := Do(p, Work(i));
    RingIsNew(p);
    var job := p.ring[0];
    assert HeldBy(p', i, job);
    forall k, j | k != i ensures HeldBy(p', k, j) <==> HeldBy(p, k, j) {}
    forall j | j in p'.pulled && j !in p'.finished ensures exists k :: HeldBy(p', k, j) {
      if j != job {
        var k :| HeldBy(p, k, j);
        assert HeldBy(p', k, j);
      }
    }
  }

  lemma JobsStep(p: Pool, st: Step)
    requires QueueOk(p) && JobsOk(p) && Enabled(p, st)
    ensures JobsOk(Do(p, st))
  {
    var p' := Do(p, st);
    if st.Work? && p.workers[st.id].Pulling? && p.ring != [] {
      JobsPull(p, st.id);
    } else if st.Work? && p.workers[st.id].Running? {
      JobsFinish(p, st.id);
    } else {
      forall k, j ensures HeldBy(p', k, j) <==> HeldBy(p, k, j) {}
    }
  }

  lemma JobsFinish(p: Pool, i: nat)
    requires JobsOk(p) && Enabled(p, Work(i)) && p.workers[i].Running?
    ensures JobsOk(Do(p, Work(i)))
  {
    var p' := Do(p, Work(i));
    assert HeldBy(p, i, p.workers[i].job);
    forall k, j | k != i ensures HeldBy(p', k, j) <==> HeldBy(p, k, j) {}
    forall j | j in p'.pulled && j !in p'.finished ensures exists k :: HeldBy(p', k, j) {
      var k :| HeldBy(p, k, j);
      assert HeldBy(p', k, j);
    }
  }

  lemma WakeupStep(p: Pool, st: Step)
    requires QueueOk(p) && WakeupOk(p) && Enabled(p, st)
    ensures WakeupOk(Do(p, st))
  {
    var p' := Do(p, st);
    if p.keepalive && p.len > 0 && p.sem != 1 && p.lock == Unlocked {
      var k :| 0 <= k < |p.workers| && Between(p.workers[k]);
      assert Between(p'.workers[k]) || p'.lock != Unlocked || p'.len == 0 || !p'.keepalive || p'.sem == 1;
    } else if st.Work? && p.workers[st.id].Waiting? {
      assert Between(p'.workers[st.id]);
    }
  }

  lemma PoolStep(p: Pool, st: Step)
    requires PoolInv(p) && Enabled(p, st)
    ensures PoolInv(Do(p, st))
  {
    CountsStep(p, st);
    QueueStep(p, st);
    LockStep(p, st);
    JobsStep(p, st);
    WakeupStep(p, st);
  }

  lemma {:induction false} InitCounts(n: nat)
    ensures Number(Init(n).workers, Counted) == 0 && Number(Init(n).workers, NotGone) == n
  {
    if n > 0 {
      InitCounts(n - 1);
      assert Init(n).workers[1..] == Init(n - 1).workers;
    }
  }

  lemma InitIsSound(n: nat)
    ensures PoolInv(Init(n)) && |Init(n).workers| == n
  {
    InitCounts(n);
    assert forall i :: 0 <= i < n ==> Init(n).workers[i] == Top;
  }

  /** Every state of every run of a pool of any size satisfies the invariant, up
      to and including the step in which it may fault. */
  lemma {:induction false} RunsAreSound(n: nat, ps: seq<Pool>, steps: seq<Step>, k: nat)
    requires IsRun(n, ps, steps) && k < |ps|
    ensures PoolInv(ps[k]) && |ps[k].workers| == n
  {
    if k == 0 {
      InitIsSound(n);
    } else {
      RunsAreSound(n, ps, steps, k - 1);
      var i := k - 1;
      assert Linked(ps, steps, i);
      PoolStep(ps[i], steps[i]);
    }
  }

  /** While the pool is kept alive, no worker leaves. */
  ghost predicate NoneGone(p: Pool) {
    p.keepalive ==> forall i :: 0 <= i < |p.workers| ==> !p.workers[i].Leaving? && !p.workers[i].Gone?
  }

  lemma {:induction false} RunsLoseNobody(n: nat, ps: seq<Pool>, steps: seq<Step>, k: nat)
    requires IsRun(n, ps, steps) && k < |ps|
    ensures NoneGone(ps[k])
  {
    if k == 0 {
      assert forall i :: 0 <= i < n ==> Init(n).workers[i] == Top;
    } else {
      RunsLoseNobody(n, ps, steps, k - 1);
      assert Linked(ps, steps, k - 1);
      NobodyGoes(ps[k - 1], steps[k - 1]);
    }
  }

  lemma NobodyGoes(p: Pool, st: Step)
    requires NoneGone(p) && Enabled(p, st)
    ensures NoneGone(Do(p, st))
  {}

  /** Jobs are pulled in submission order, each at most once, and none is lost:
      what was pulled is a prefix of the submissions, and the rest is queued. */
  lemma PulledInOrder(n: nat, ps: seq<Pool>, steps: seq<Step>, k: nat)
    requires IsRun(n, ps, steps) && k < |ps| && !ps[k].destroyed
    ensures ps[k].pulled + ps[k].ring == Upto(ps[k].submitted)
    ensures forall i, j :: 0 <= i < j < |ps[k].pulled| ==> ps[k].pulled[i] < ps[k].pulled[j]
  {
    RunsAreSound(n, ps, steps, k);
    var p := ps[k];
    assert p.pulled + p.dropped == p.pulled;
    assert forall i :: 0 <= i < |p.pulled| ==> p.pulled[i] == (p.pulled + p.ring)[i];
  }

  // ---------------------------------------------------------------------
  // thpool_wait

  ghost predicate AllFinished(p: Pool, jobs: nat) {
    forall j: nat :: j < jobs ==> j in p.finished || j in p.dropped
  }

  /** Nothing queued and nobody working: everything submitted has finished. */
  lemma QuietMeansFinished(p: Pool)
    requires PoolInv(p) && p.len == 0 && p.working == 0
    ensures AllFinished(p, p.submitted)
  {
    EmptyMeansPulled(p);
    IdleMeansFinished(p, p.submitted);
  }

  /** thpool_wait is sound for any number of threads and of callers, whatever is
      submitted meanwhile: when it returns, every job submitted before the call
      has finished, but for those that a destroy threw away. */
  lemma {:induction false} WaitIsSound(n: nat, ps: seq<Pool>, steps: seq<Step>, w: nat, c: nat, k: nat)
    requires IsRun(n, ps, steps) && c < k < |ps| && steps[c] == WaitCall(w)
    requires forall i :: c < i < k ==> steps[i] != WaitCall(w)
    ensures WaiterOk(ps[k], w, ps[c].submitted)
  {
    if k == c + 1 {
      assert Linked(ps, steps, c);
    } else {
      WaitIsSound(n, ps, steps, w, c, k - 1);
      RunsAreSound(n, ps, steps, k - 1);
      var i := k - 1;
      assert Linked(ps, steps, i);
      WaitStep(ps[i], steps[i], w, ps[c].submitted);
    }
  }

  ghost predicate AllPulled(p: Pool, jobs: nat) {
    forall j: nat :: j < jobs ==> j in p.pulled || j in p.dropped
  }

  /** What holds of a waiter that was called when `jobs` jobs had been submitted. */
  ghost predicate WaiterOk(p: Pool, w: nat, jobs: nat) {
    && p.submitted >= jobs && w in p.waiters
    && (p.waiters[w].ReadWorking? ==> AllPulled(p, jobs))
    && (p.waiters[w].Returned? ==> AllFinished(p, jobs))
    && (p.waiters[w].Returned? && !p.destroyed ==> forall j: nat :: j < jobs ==> j in p.finished)
  }

  lemma WaitStep(p: Pool, st: Step, w: nat, jobs: nat)
    requires PoolInv(p) && Enabled(p, st) && st != WaitCall(w)
    requires WaiterOk(p, w, jobs)
    ensures WaiterOk(Do(p, st), w, jobs)
  {
    HistoryGrows(p, st);
    if st == WaitRead(w) {
      if p.waiters[w].ReadLen? && p.len == 0 { EmptyMeansPulled(p); }
      if p.waiters[w].ReadWorking? && p.working == 0 { IdleMeansFinished(p, jobs); }
    }
  }

  /** Nothing queued: everything submitted has been pulled. */
  lemma EmptyMeansPulled(p: Pool)
    requires QueueOk(p) && p.len == 0
    ensures AllPulled(p, p.submitted)
  {
    forall j: nat | j < p.submitted ensures j in p.pulled || j in p.dropped {
      assert (p.pulled + p.dropped + p.ring)[j] == j;
    }
  }

  /** Nobody working: everything pulled has finished. */
  lemma IdleMeansFinished(p: Pool, jobs: nat)
    requires PoolInv(p) && p.working == 0 && AllPulled(p, jobs)
    ensures AllFinished(p, jobs)
  {
    forall j: nat | j < jobs ensures j in p.finished || j in p.dropped {
      if j in p.pulled && j !in p.finished {
        var i :| HeldBy(p, i, j);
        NumberPositive(p.workers, Counted, i);
      }
    }
  }

  lemma HistoryGrows(p: Pool, st: Step)
    requires QueueOk(p) && Enabled(p, st)
    ensures p.finished <= Do(p, st).finished && p.submitted <= Do(p, st).submitted
    ensures forall j :: j in p.pulled ==> j in Do(p, st).pulled
    ensures forall j :: j in p.dropped ==> j in Do(p, st).dropped
  {}

  // ---------------------------------------------------------------------
  // The fault

  /** With one worker, the queue covers the semaphore, the worker on its way to
      the queue and a pusher about to post. */
  ghost predicate Covered(p: Pool) {
    && |p.workers| == 1 && !p.fault
    && (p.keepalive ==> p.len >= p.sem + (if Between(p.workers[0]) then 1 else 0)
                                 + (if p.lock.Pusher? then 1 else 0))
    && (p.lock.Worker? ==> p.len >= 1)
    && (p.workers[0].Counting? || p.workers[0].Pulling? ==> p.len >= 1)
    && (p.destroyed ==> p.alive == 0)
  }

  lemma CoveredStep(p: Pool, st: Step)
    requires PoolInv(p) && Covered(p) && Enabled(p, st)
    ensures Covered(Do(p, st))
  {
    assert p.alive == if NotGone(p.workers[0]) then 1 else 0 by {
      assert p.workers[1..] == [];
      assert Number(p.workers, NotGone) == if NotGone(p.workers[0]) then 1 else 0;
    }
    if st.Work? { CoveredWork(p); }
  }

  lemma CoveredWork(p: Pool)
    requires PoolInv(p) && Covered(p) && Enabled(p, Work(0))
    requires p.alive == if NotGone(p.workers[0]) then 1 else 0
    ensures Covered(Do(p, Work(0)))
  {}

  /** A pool with one worker never faults: in every state of every run the length
      of the queue covers semaphore and worker, so no pull finds the ring empty. */
  lemma {:induction false} SingleWorkerNeverFaults(ps: seq<Pool>, steps: seq<Step>, k: nat)
    requires IsRun(1, ps, steps) && k < |ps|
    ensures Covered(ps[k])
  {
    if k == 0 {
    } else {
      SingleWorkerNeverFaults(ps, steps, k - 1);
      RunsAreSound(1, ps, steps, k - 1);
      var i := k - 1;
      assert Linked(ps, steps, i);
      CoveredStep(ps[i], steps[i]);
    }
  }

  ghost predicate Reachable(n: nat, p: Pool) {
    exists ps, steps :: IsRun(n, ps, steps) && ps[|steps|] == p
  }

  lemma ReachInit(n: nat)
    ensures Reachable(n, Init(n))
  {
    var ps: seq<Pool>, steps: seq<Step> := [Init(n)], [];
    assert IsRun(n, ps, steps) && ps[|steps|] == Init(n);
  }

  lemma ReachStep(n: nat, p: Pool, st: Step)
    requires Reachable(n, p) && Enabled(p, st)
    ensures Reachable(n, Do(p, st))
  {
    var ps, steps :| IsRun(n, ps, steps) && ps[|steps|] == p;
    var qs, ts := ps + [Do(p, st)], steps + [st];
    forall i | 0 <= i < |ts| ensures Linked(qs, ts, i) {
      if i < |steps| { assert Linked(ps, steps, i); }
    }
    assert IsRun(n, qs, ts) && qs[|ts|] == Do(p, st);
  }

  /** A submission by a thread that finds rwmutex free. */
  function Submitted(p: Pool): Pool {
    p.(ring := p.ring + [p.submitted], len := p.len + 1, sem := 1, submitted := p.submitted + 1)
  }

  lemma ReachSubmitted(n: nat, p: Pool)
    requires Reachable(n, p) && !p.fault && p.lock.Unlocked? && !p.destroyed
    ensures Reachable(n, Submitted(p))
  {
    ReachStep(n, p, Push);
    ReachStep(n, Do(p, Push), PushPost);
  }

  /** A worker at the top of its loop takes the semaphore and walks to the queue. */
  function Walked(p: Pool, i: nat): Pool
    requires i < |p.workers|
  {
    At(p, i, Pulling).(sem := 0, working := p.working + 1)
  }

  lemma ReachWalked(n: nat, p: Pool, i: nat)
    requires Reachable(n, p) && !p.fault && i < |p.workers| && p.workers[i].Top? && p.keepalive && p.sem == 1
    ensures Reachable(n, Walked(p, i))
  {
    ReachStep(n, p, Work(i));
    var p1 := Do(p, Work(i));
    ReachStep(n, p1, Work(i));
    var p2 := Do(p1, Work(i));
    ReachStep(n, p2, Work(i));
    var p3 := Do(p2, Work(i));
    ReachStep(n, p3, Work(i));
    assert Do(p3, Work(i)).workers == p.workers[i := Pulling];
    assert Do(p3, Work(i)) == Walked(p, i);
  }

  /** Two workers are past the wait; the first pull posts again, the second
      empties the queue: the semaphore is posted over an empty queue. */
  lemma SurplusToken(n: nat) returns (p: Pool)
    requires n >= 2
    ensures Reachable(n, p) && !p.fault && p.keepalive && p.lock.Unlocked?
    ensures p.ring == [] && p.sem == 1 && |p.workers| == n && p.workers[0] == Running(0)
  {
    ReachInit(n);
    var p0 := Init(n);
    ReachSubmitted(n, p0);
    var p1 := Submitted(p0);
    ReachWalked(n, p1, 0);
    var p2 := Walked(p1, 0);
    ReachSubmitted(n, p2);
    var p3 := Submitted(p2);
    ReachWalked(n, p3, 1);
    var p4 := Walked(p3, 1);
    assert p4.ring == [0, 1] && p4.len == 2 && p4.workers[0] == Pulling && p4.workers[1] == Pulling;
    ReachStep(n, p4, Work(0));
    var p5 := Do(p4, Work(0));
    assert p5.ring == [1] && p5.workers[0] == Posting(0);
    ReachStep(n, p5, Work(0));
    var p6 := Do(p5, Work(0));
    ReachStep(n, p6, Work(1));
    p := Do(p6, Work(1));
  }

  lemma FaultReachable(n: nat) returns (p: Pool)
    requires n >= 2
    ensures Reachable(n, p) && p.fault
  {
    var q := SurplusToken(n);
    ReachStep(n, q, Work(0));
    var q1 := Do(q, Work(0));
    ReachStep(n, q1, Work(0));
    var q2 := Do(q1, Work(0));
    ReachWalked(n, q2, 0);
    var q3 := Walked(q2, 0);
    ReachStep(n, q3, Work(0));
    p := Do(q3, Work(0));
  }

  /** A worker can find the queue empty exactly in pools with two or more of them. */
  lemma FaultExact(n: nat)
    requires n >= 1
    ensures (exists p :: Reachable(n, p) && p.fault) <==> n >= 2
  {
    if n >= 2 {
      var p := FaultReachable(n);
    } else {
      forall p | Reachable(n, p) ensures !p.fault {
        var ps, steps :| IsRun(n, ps, steps) && ps[|steps|] == p;
        SingleWorkerNeverFaults(ps, steps, |steps|);
      }
    }
  }

  /** The order of the two reads matters: nobody may be counted as working, and
      later, with no submission in between, the queue be empty, although a job
      has not finished. */
  lemma WorkingFirstIsUnsound() returns (p: Pool, p': Pool)
    ensures Reachable(1, p) && p.working == 0
    ensures Enabled(p, Work(0)) && Enabled(Do(p, Work(0)), Work(0))
    ensures p' == Do(Do(p, Work(0)), Work(0)) && Reachable(1, p') && p'.len == 0
    ensures p'.submitted == 1 && !AllFinished(p', 1)
  {
    ReachInit(1);
    ReachSubmitted(1, Init(1));
    var p1 := Submitted(Init(1));
    ReachStep(1, p1, Work(0));
    var p2 := Do(p1, Work(0));
    ReachStep(1, p2, Work(0));
    var p3 := Do(p2, Work(0));
    ReachStep(1, p3, Work(0));
    p := Do(p3, Work(0));
    ReachStep(1, p, Work(0));
    var p4 := Do(p, Work(0));
    ReachStep(1, p4, Work(0));
    p' := Do(p4, Work(0));
    assert 0 !in p'.finished && 0 !in p'.dropped;
  }
}
