/** What becomes of each request over whole runs of the timer queue, and what the
    firing loop of event_wait fires. */
module TimerFates {
  import opened Timers
  import opened TimerRuns
  import opened Options

  /** What a move leaves of the entry for a key: a request makes a new one, a cancel
      or its detachment for firing removes it. */
  function Leaves(r: Run, m: Move, k: TimerKey, was: Option<Timer>): Option<Timer> {
    match m
    case DoRequest(k', d, now) => if k' == k then Some(Timer(now + d, k, r.ts.next)) else was
    case DoCancel(k') => if k' == k then None else was
    case Detach => if r.ts.queue != [] && r.ts.queue[0].key == k then None else was
    case _ => was
  }

  /** The entry that the first n moves leave for a key. */
  function Pending(rs: seq<Run>, ms: seq<Move>, n: nat, k: TimerKey): Option<Timer>
    requires n <= |ms| < |rs|
  {
    if n == 0 then None else Leaves(rs[n - 1], ms[n - 1], k, Pending(rs, ms, n - 1, k))
  }

  lemma LeavesExact(r: Run, m: Move, t: Timer, was: Option<Timer>)
    requires Valid(r.ts) && Enabled(r, m) && (t in r.ts.queue <==> was == Some(t))
    ensures t in Do(r, m).ts.queue <==> Leaves(r, m, t.key, was) == Some(t)
  {
    match m {
      case DoRequest(k, d, now) => RequestExact(r.ts, k, d, now);
      case DoCancel(k) => CancelExact(r.ts, k);
      case Detach => DetachMembers(r.ts.queue, t);
      case _ =>
    }
  }

  /** The queue holds exactly what the moves so far leave, in every state of every
      run: a request stays queued until another one for its key, a cancel, or its
      firing. */
  lemma {:induction false} RunsPendingExact(rs: seq<Run>, ms: seq<Move>, n: nat, t: Timer)
    requires IsRun(rs, ms) && n < |rs|
    ensures t in rs[n].ts.queue <==> Pending(rs, ms, n, t.key) == Some(t)
  {
    if n > 0 {
      RunsPendingExact(rs, ms, n - 1, t);
      assert Valid(rs[n - 1].ts) by { RunsAreSound(rs, ms, n - 1); }
      assert Enabled(rs[n - 1], ms[n - 1]) && rs[n - 1 + 1] == Do(rs[n - 1], ms[n - 1]);
      LeavesExact(rs[n - 1], ms[n - 1], t, Pending(rs, ms, n - 1, t.key));
    }
  }

  lemma DetachMembers(q: Queue, t: Timer)
    requires DistinctKeys(q) && q != []
    ensures t in q[1..] <==> t in q && t.key != q[0].key
  {
    if t in q && t.key != q[0].key {
      var i :| 0 <= i < |q| && q[i] == t;
      assert q[1..][i - 1] == t;
    }
  }

  /** How a move disposes of the entry it takes off the queue, if any. */
  function FateOf(r: Run, m: Move, t: Timer): Option<Fate> {
    match m
    case DoRequest(k, _, _) => if t.key == k then Some(Reset(t)) else None
    case DoCancel(k) => if t.key == k then Some(Cancelled(t)) else None
    case Detach => if r.ts.queue != [] && r.ts.queue[0] == t then Some(Fired(t, r.ts.present)) else None
    case _ => None
  }

  /** The history grows by the fate of exactly the entry that leaves the queue. */
  lemma FateExact(r: Run, m: Move)
    requires Valid(r.ts) && Enabled(r, m)
    ensures (forall t :: t in r.ts.queue ==> FateOf(r, m, t) == None) ==> Do(r, m).log == r.log
    ensures forall t :: t in r.ts.queue && FateOf(r, m, t).Some? ==> Do(r, m).log == r.log + [FateOf(r, m, t).value]
  {
    var q := r.ts.queue;
    if m.DoRequest? || m.DoCancel? {
      var i := Find(q, m.key);
      if i < |q| { assert q[i] in q && FateOf(r, m, q[i]).Some?; }
      forall t | t in q && t.key == m.key ensures i < |q| && q[i] == t {
        var j :| 0 <= j < |q| && q[j] == t;
        assert i <= j;
      }
    }
    if m.Detach? { assert q[0] in q && FateOf(r, m, q[0]).Some?; }
  }

  /** Once the clock has reached the first deadline, that entry can be fired, with
      the time the clock shows. */
  lemma ExpiredCanFire(r: Run, now: int)
    requires r.firing.Idle? && r.ts.queue != [] && r.ts.queue[0].when <= now && r.ts.present <= now
    ensures Enabled(r, Clock(now)) && Enabled(Do(r, Clock(now)), Detach)
    ensures var r' := Do(Do(r, Clock(now)), Detach);
      r'.firing == Running(r.ts.queue[0]) && r'.log == r.log + [Fired(r.ts.queue[0], now)]
  {}

  // ---------------------------------------------------------------------
  // The firing loop

  function Due(q: Queue, present: int): nat {
    if q == [] || q[0].when > present then 0 else 1 + Due(q[1..], present)
  }

  lemma {:induction false} DueExact(q: Queue, present: int)
    requires Ordered(q)
    ensures Due(q, present) <= |q|
    ensures forall t :: t in q[..Due(q, present)] ==> t.when <= present
    ensures forall t :: t in q[Due(q, present)..] ==> t.when > present
  {
    var d := Due(q, present);
    if q == [] {
    } else if q[0].when > present {
      forall t | t in q ensures t.when > present { FirstLeast(q, t); }
    } else {
      DueExact(q[1..], present);
      assert q[..d] == [q[0]] + q[1..][..d - 1] && q[d..] == q[1..][d - 1..];
    }
  }

  function FiredAt(q: Queue, now: int): seq<Fate> {
    seq(|q|, i requires 0 <= i < |q| => Fired(q[i], now))
  }

  /** With callbacks that leave the queue alone, and enough rounds, the loop fires
      exactly the entries that are due, in the order of the queue. */
  lemma {:induction false} LoopFiresDue(r: Run, scripts: seq<seq<Call>>)
    requires Valid(r.ts) && r.firing.Idle? && |scripts| >= |r.ts.queue|
    requires forall i :: 0 <= i < |scripts| ==> scripts[i] == []
    ensures Legal(r, LoopMoves(r.ts, scripts))
    ensures var d, r' := Due(r.ts.queue, r.ts.present), Exec(r, LoopMoves(r.ts, scripts));
      && d <= |r.ts.queue|
      && r'.ts == Loop(r.ts, scripts) == r.ts.(queue := r.ts.queue[d..])
      && r'.log == r.log + FiredAt(r.ts.queue[..d], r.ts.present)
    decreases |scripts|
  {
    var q, present := r.ts.queue, r.ts.present;
    if q == [] || q[0].when > present {
      assert FiredAt(q[..0], present) == [];
    } else {
      var r2 := Do(Do(r, Detach), Free);
      assert Valid(r2.ts) by { ValidStep(r, Detach); }
      LoopFiresDue(r2, scripts[1..]);
      var ms, rest := LoopMoves(r.ts, scripts), LoopMoves(r2.ts, scripts[1..]);
      assert ms == [Detach] + CallMoves([]) + [Free] + rest;
      QuietMoves(rest);
      FireQuietly(r, ms, rest);
      FirstFired(q, Due(q, present), present, r.log);
    }
  }

  lemma QuietMoves(rest: seq<Move>)
    ensures var ms := [Detach] + CallMoves([]) + [Free] + rest;
      |ms| > 1 && ms[0] == Detach && ms[1..][0] == Free && ms[1..][1..] == rest
  {
    assert CallMoves([]) == [];
  }

  lemma FireQuietly(r: Run, ms: seq<Move>, rest: seq<Move>)
    requires |ms| > 1 && ms[0] == Detach && ms[1..][0] == Free && ms[1..][1..] == rest
    requires Enabled(r, Detach) && Legal(Do(Do(r, Detach), Free), rest)
    ensures Legal(r, ms) && Exec(r, ms) == Exec(Do(Do(r, Detach), Free), rest)
  {}

  lemma FirstFired(q: Queue, d: nat, now: int, log: seq<Fate>)
    requires 0 < d <= |q|
    ensures q[d..] == q[1..][d - 1..]
    ensures log + FiredAt(q[..d], now) == log + [Fired(q[0], now)] + FiredAt(q[1..][..d - 1], now)
  {}
}
