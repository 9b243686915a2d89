/** Whole runs of the timer queue of src/util/events.c: requests, cancels, the
    clock, and the firing loop of event_wait with callbacks that make requests
    and cancels of their own. */
module TimerRuns {
  import opened Timers
  import opened Seqs

  /** How a request left the queue. */
  datatype Fate =
    | Fired(timer: Timer, at: int)
    | Cancelled(timer: Timer)
    | Reset(timer: Timer)

  /** `firing` is the detached entry whose callback is running. */
  datatype Firing = Idle | Running(timer: Timer)
  datatype Run = Run(ts: TimerState, firing: Firing, log: seq<Fate>)

  /** The callbacks of the program make any of the first two moves at any time,
      in particular between Detach and Free. */
  datatype Move =
    | DoRequest(key: TimerKey, delay: nat, now: int)
    | DoCancel(key: TimerKey)
    | Clock(now: int)
    | Detach
    | Free

  predicate Enabled(r: Run, m: Move) {
    match m
    case DoRequest(_, _, now) => r.ts.present <= now
    case DoCancel(_) => true
    case Clock(now) => r.ts.present <= now
    case Detach => r.firing.Idle? && r.ts.queue != [] && r.ts.queue[0].when <= r.ts.present
    case Free => r.firing.Running?
  }

  function Taken(q: Queue, k: TimerKey, reset: bool): seq<Fate> {
    var i := Find(q, k);
    if i == |q| then [] else if reset then [Reset(q[i])] else [Cancelled(q[i])]
  }

  function Do(r: Run, m: Move): Run
    requires Enabled(r, m)
  {
    match m
    case DoRequest(k, d, now) =>
      r.(ts := Request(r.ts, k, d, now), log := r.log + Taken(r.ts.queue, k, true))
    case DoCancel(k) =>
      r.(ts := Cancel(r.ts, k), log := r.log + Taken(r.ts.queue, k, false))
    case Clock(now) => r.(ts := r.ts.(present := now))
    case Detach =>
      Run(r.ts.(queue := r.ts.queue[1..]), Running(r.ts.queue[0]),
          r.log + [Fired(r.ts.queue[0], r.ts.present)])
    case Free => r.(firing := Idle)
  }

  const START: Run := Run(TimerState([], 0, 0), Idle, [])

  ghost predicate IsRun(rs: seq<Run>, ms: seq<Move>) {
    && |rs| == |ms| + 1
    && rs[0] == START
    && forall i :: 0 <= i < |ms| ==> Enabled(rs[i], ms[i]) && rs[i + 1] == Do(rs[i], ms[i])
  }

  function Serials(q: Queue): (s: seq<nat>)
    ensures |s| == |q|
  {
    seq(|q|, i requires 0 <= i < |q| => q[i].serial)
  }

  function LogSerials(l: seq<Fate>): (s: seq<nat>)
    ensures |s| == |l|
  {
    seq(|l|, i requires 0 <= i < |l| => l[i].timer.serial)
  }

  /** Every request made so far is either still queued or left it exactly once. */
  ghost predicate ConsumedOnce(r: Run) {
    multiset(Serials(r.ts.queue)) + multiset(LogSerials(r.log)) == multiset(Upto(r.ts.next))
  }

  /** Nothing fires early, and deadlines fire in non-decreasing order. */
  ghost predicate FiredInOrder(r: Run) {
    && (forall i :: 0 <= i < |r.log| && r.log[i].Fired? ==>
          r.log[i].timer.when <= r.log[i].at <= r.ts.present)
    && (forall i, j :: 0 <= i < j < |r.log| && r.log[i].Fired? && r.log[j].Fired? ==>
          r.log[i].timer.when <= r.log[j].timer.when)
    && (forall i, j :: 0 <= i < |r.log| && r.log[i].Fired? && 0 <= j < |r.ts.queue| ==>
          r.log[i].timer.when <= r.ts.queue[j].when)
  }

  /** The entry whose callback runs has left the queue for good: no queued entry
      is that entry, whatever the callback does, so freeing it is safe. */
  ghost predicate FiringDetached(r: Run) {
    r.firing.Running? ==> r.firing.timer !in r.ts.queue
                          && r.firing.timer.serial in LogSerials(r.log)
  }

  ghost predicate RunInv(r: Run) {
    Valid(r.ts) && ConsumedOnce(r) && FiredInOrder(r) && FiringDetached(r)
  }

  lemma SerialsConcat(a: Queue, b: Queue)
    ensures Serials(a + b) == Serials(a) + Serials(b)
  {}

  lemma LogSerialsConcat(a: seq<Fate>, b: seq<Fate>)
    ensures LogSerials(a + b) == LogSerials(a) + LogSerials(b)
  {}

  lemma TakenConserves(q: Queue, k: TimerKey, reset: bool)
    ensures multiset(Serials(Remove(q, k))) + multiset(LogSerials(Taken(q, k, reset)))
         == multiset(Serials(q))
  {
    var i := Find(q, k);
    if i < |q| {
      assert q == q[..i] + [q[i]] + q[i + 1..];
      SerialsConcat(q[..i] + [q[i]], q[i + 1..]);
      SerialsConcat(q[..i], [q[i]]);
      SerialsConcat(q[..i], q[i + 1..]);
      assert LogSerials(Taken(q, k, reset)) == [q[i].serial] == Serials([q[i]]);
    } else {
      assert LogSerials(Taken(q, k, reset)) == [];
    }
  }

  lemma InsertConserves(q: Queue, t: Timer)
    ensures multiset(Serials(Insert(q, t))) == multiset(Serials(q)) + multiset{t.serial}
  {
    var i := Slot(q, t.when);
    assert q == q[..i] + q[i..];
    SerialsConcat(q[..i], q[i..]);
    SerialsConcat(q[..i] + [t], q[i..]);
    SerialsConcat(q[..i], [t]);
    assert Serials([t]) == [t.serial];
  }

  lemma ConsumedRequest(r: Run, k: TimerKey, d: nat, now: int)
    requires ConsumedOnce(r) && r.ts.present <= now
    ensures ConsumedOnce(Do(r, DoRequest(k, d, now)))
  {
    TakenConserves(r.ts.queue, k, true);
    InsertConserves(Remove(r.ts.queue, k), Timer(now + d, k, r.ts.next));
    LogSerialsConcat(r.log, Taken(r.ts.queue, k, true));
    assert Upto(r.ts.next + 1) == Upto(r.ts.next) + [r.ts.next];
  }

  lemma ConsumedDetach(r: Run)
    requires ConsumedOnce(r) && Enabled(r, Detach)
    ensures ConsumedOnce(Do(r, Detach))
  {
    var t := r.ts.queue[0];
    assert r.ts.queue == [t] + r.ts.queue[1..];
    SerialsConcat([t], r.ts.queue[1..]);
    LogSerialsConcat(r.log, [Fired(t, r.ts.present)]);
    assert Serials([t]) == [t.serial] == LogSerials([Fired(t, r.ts.present)]);
  }

  lemma ConsumedStep(r: Run, m: Move)
    requires ConsumedOnce(r) && Enabled(r, m)
    ensures ConsumedOnce(Do(r, m))
  {
    match m
    case DoRequest(k, d, now) => ConsumedRequest(r, k, d, now);
    case DoCancel(k) =>
      TakenConserves(r.ts.queue, k, false);
      LogSerialsConcat(r.log, Taken(r.ts.queue, k, false));
    case Detach => ConsumedDetach(r);
    case _ =>
  }

  /** Every entry of the new queue is an old one or is due at or after the clock. */
  lemma QueueOrigin(r: Run, m: Move)
    requires Valid(r.ts) && Enabled(r, m)
    ensures forall u :: u in Do(r, m).ts.queue ==>
              u in r.ts.queue || (u.serial == r.ts.next && u.when >= Do(r, m).ts.present)
  {
    match m
    case DoRequest(k, d, now) => RequestExact(r.ts, k, d, now);
    case DoCancel(k) => CancelExact(r.ts, k);
    case _ =>
  }

  lemma FiredStep(r: Run, m: Move)
    requires Valid(r.ts) && FiredInOrder(r) && Enabled(r, m)
    ensures FiredInOrder(Do(r, m))
  {
    if m.Detach? {
      FiredDetach(r);
    } else {
      QueueOrigin(r, m);
      FiredKept(r, Do(r, m));
    }
  }

  /** Nothing new has fired; what is queued was queued before, or is due later. */
  lemma FiredKept(r: Run, r': Run)
    requires FiredInOrder(r) && r.ts.present <= r'.ts.present && r.log <= r'.log
    requires forall i :: |r.log| <= i < |r'.log| ==> !r'.log[i].Fired?
    requires forall u :: u in r'.ts.queue ==> u in r.ts.queue || u.when >= r'.ts.present
    ensures FiredInOrder(r')
  {
    forall i, j | 0 <= i < |r'.log| && r'.log[i].Fired? && 0 <= j < |r'.ts.queue|
      ensures r'.log[i].timer.when <= r'.ts.queue[j].when
    {
      assert r'.log[i] == r.log[i] && r'.ts.queue[j] in r'.ts.queue;
    }
  }

  lemma FiredDetach(r: Run)
    requires Ordered(r.ts.queue) && FiredInOrder(r) && Enabled(r, Detach)
    ensures FiredInOrder(Do(r, Detach))
  {
    var r' := Do(r, Detach);
    forall j | 0 <= j < |r'.ts.queue| ensures r.ts.queue[0].when <= r'.ts.queue[j].when {
      assert Before(r.ts.queue[0], r.ts.queue[j + 1]);
    }
  }

  lemma DetachedStep(r: Run, m: Move)
    requires Valid(r.ts) && ConsumedOnce(r) && FiringDetached(r) && Enabled(r, m)
    ensures FiringDetached(Do(r, m))
  {
    var r' := Do(r, m);
    QueueOrigin(r, m);
    SerialBound(r);
    if m.Detach? {
      assert LogSerials(r'.log)[|r.log|] == r.ts.queue[0].serial;
      forall j | 0 <= j < |r'.ts.queue| ensures r.ts.queue[0] != r'.ts.queue[j] {
        assert Before(r.ts.queue[0], r.ts.queue[j + 1]);
      }
    } else if r'.firing.Running? {
      var i :| 0 <= i < |r.log| && LogSerials(r.log)[i] == r.firing.timer.serial;
      assert LogSerials(r'.log)[i] == r.firing.timer.serial;
    }
  }

  lemma ValidStep(r: Run, m: Move)
    requires Valid(r.ts) && Enabled(r, m)
    ensures Valid(Do(r, m).ts)
  {
    match m
    case DoRequest(k, d, now) => RequestExact(r.ts, k, d, now);
    case DoCancel(k) => CancelExact(r.ts, k);
    case _ =>
  }

  /** Serials in the log are below the request count. */
  lemma SerialBound(r: Run)
    requires ConsumedOnce(r)
    ensures forall n :: n in LogSerials(r.log) ==> n < r.ts.next
  {
    forall n | n in LogSerials(r.log) ensures n < r.ts.next {
      assert n in multiset(LogSerials(r.log));
      assert n in multiset(Upto(r.ts.next));
      assert n in Upto(r.ts.next);
    }
  }

  /** In every state of every run: the queue is a stable priority queue with
      one entry per key, every request is consumed exactly once, timers fire at
      or after their deadline and in deadline order, and a running callback's
      entry is never back in the queue. */
  lemma {:induction false} RunsAreSound(rs: seq<Run>, ms: seq<Move>, n: nat)
    requires IsRun(rs, ms) && n < |rs|
    ensures RunInv(rs[n])
  {
    if n == 0 {
    } else {
      RunsAreSound(rs, ms, n - 1);
      var r, m := rs[n - 1], ms[n - 1];
      ValidStep(r, m);
      ConsumedStep(r, m);
      FiredStep(r, m);
      DetachedStep(r, m);
    }
  }

  /** A consumed request appears in the log once only, and is not queued. */
  lemma ConsumedAtMostOnce(r: Run, i: nat, j: nat)
    requires ConsumedOnce(r) && i < j < |r.log|
    ensures r.log[i].timer.serial != r.log[j].timer.serial
    ensures r.log[i].timer.serial !in Serials(r.ts.queue)
  {
    var s, q := LogSerials(r.log), Serials(r.ts.queue);
    UptoOnce(r.ts.next);
    var x := s[i];
    assert x in multiset(s) && x in multiset(Upto(r.ts.next));
    assert x in Upto(r.ts.next);
    assert multiset(s)[x] + multiset(q)[x] == 1;
    assert x in q ==> x in multiset(q);
    assert s == s[..j] + s[j..];
    assert s[i] in s[..j] && s[j] in s[j..];
    assert s[j] in multiset(s[j..]);
  }

  lemma {:induction false} UptoOnce(n: nat)
    ensures forall k: nat :: multiset(Upto(n))[k] == if k < n then 1 else 0
  {
    if n == 0 {
      assert Upto(0) == [];
    } else {
      UptoOnce(n - 1);
      assert Upto(n) == Upto(n - 1) + [n - 1];
    }
  }

  // ---------------------------------------------------------------------
  // The timer loop of event_wait

  /** What a callback does to the queue. */
  datatype Call =
    | CallRequest(key: TimerKey, delay: nat, now: int)
    | CallCancel(key: TimerKey)

  function Obey(ts: TimerState, c: Call): TimerState {
    match c
    case CallRequest(k, d, now) => Request(ts, k, d, now)
    case CallCancel(k) => Cancel(ts, k)
  }

  function ObeyAll(ts: TimerState, cs: seq<Call>): TimerState
    decreases |cs|
  {
    if cs == [] then ts else ObeyAll(Obey(ts, cs[0]), cs[1..])
  }

  /** The timer loop: while the first entry is due, take it off and run its
      callback. `scripts` says what the successive callbacks do. */
  function Loop(ts: TimerState, scripts: seq<seq<Call>>): TimerState
    decreases |scripts|
  {
    if scripts == [] || ts.queue == [] || ts.queue[0].when > ts.present then ts
    else Loop(ObeyAll(ts.(queue := ts.queue[1..]), scripts[0]), scripts[1..])
  }

  /** The moves a callback and the loop make. */
  function CallMove(c: Call): Move {
    match c
    case CallRequest(k, d, now) => DoRequest(k, d, now)
    case CallCancel(k) => DoCancel(k)
  }

  function CallMoves(cs: seq<Call>): seq<Move> {
    seq(|cs|, i requires 0 <= i < |cs| => CallMove(cs[i]))
  }

  function LoopMoves(ts: TimerState, scripts: seq<seq<Call>>): seq<Move>
    decreases |scripts|
  {
    if scripts == [] || ts.queue == [] || ts.queue[0].when > ts.present then []
    else [Detach] + CallMoves(scripts[0]) + [Free]
         + LoopMoves(ObeyAll(ts.(queue := ts.queue[1..]), scripts[0]), scripts[1..])
  }

  predicate Legal(r: Run, ms: seq<Move>)
    decreases |ms|
  {
    ms == [] || (Enabled(r, ms[0]) && Legal(Do(r, ms[0]), ms[1..]))
  }

  function Exec(r: Run, ms: seq<Move>): Run
    requires Legal(r, ms)
    decreases |ms|
  {
    if ms == [] then r else Exec(Do(r, ms[0]), ms[1..])
  }

  /** The clock read by callbacks does not run backwards. */
  predicate ClockOk(ts: TimerState, cs: seq<Call>)
    decreases |cs|
  {
    cs == [] || ((cs[0].CallRequest? ==> ts.present <= cs[0].now) && ClockOk(Obey(ts, cs[0]), cs[1..]))
  }

  predicate LoopClockOk(ts: TimerState, scripts: seq<seq<Call>>)
    decreases |scripts|
  {
    scripts == [] || ts.queue == [] || ts.queue[0].when > ts.present
    || var ts1 := ts.(queue := ts.queue[1..]);
       ClockOk(ts1, scripts[0]) && LoopClockOk(ObeyAll(ts1, scripts[0]), scripts[1..])
  }

  lemma {:induction false} ExecConcat(r: Run, a: seq<Move>, b: seq<Move>)
    requires Legal(r, a) && Legal(Exec(r, a), b)
    ensures Legal(r, a + b) && Exec(r, a + b) == Exec(Exec(r, a), b)
    decreases |a|
  {
    if a == [] {
      assert a + b == b;
    } else {
      TailConcat(a, b);
      ExecConcat(Do(r, a[0]), a[1..], b);
    }
  }

  lemma {:induction false} CallsAreMoves(r: Run, cs: seq<Call>)
    requires ClockOk(r.ts, cs)
    ensures Legal(r, CallMoves(cs))
    ensures Exec(r, CallMoves(cs)).ts == ObeyAll(r.ts, cs) && Exec(r, CallMoves(cs)).firing == r.firing
    decreases |cs|
  {
    if cs == [] {
    } else {
      assert CallMoves(cs)[1..] == CallMoves(cs[1..]);
      CallsAreMoves(Do(r, CallMove(cs[0])), cs[1..]);
    }
  }

  /** Every firing of the loop, whatever the callbacks do, is a stretch of a run,
      so all that holds over runs holds of it. */
  lemma {:induction false} LoopIsRun(r: Run, scripts: seq<seq<Call>>)
    requires r.firing.Idle? && LoopClockOk(r.ts, scripts)
    ensures Legal(r, LoopMoves(r.ts, scripts))
    ensures Exec(r, LoopMoves(r.ts, scripts)).ts == Loop(r.ts, scripts)
    ensures Exec(r, LoopMoves(r.ts, scripts)).firing.Idle?
    decreases |scripts|
  {
    if scripts == [] || r.ts.queue == [] || r.ts.queue[0].when > r.ts.present {
    } else {
      var r1 := Do(r, Detach);
      assert Legal(r1, []) && Exec(r, [Detach]) == r1;
      CallsAreMoves(r1, scripts[0]);
      var calls := CallMoves(scripts[0]);
      ExecConcat(r, [Detach], calls);
      var r2 := Exec(r1, calls);
      var r3 := Do(r2, Free);
      assert Legal(r3, []) && Legal(r2, [Free]) && Exec(r2, [Free]) == r3;
      ExecConcat(r, [Detach] + calls, [Free]);
      LoopIsRun(r3, scripts[1..]);
      ExecConcat(r, [Detach] + calls + [Free], LoopMoves(r3.ts, scripts[1..]));
    }
  }
}
