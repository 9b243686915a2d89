/** The timer queue of src/util/events.c as a value: what event_request_timer,
    event_cancel_timer and the firing loop of event_wait do to the sorted list
    of requests. */
module Timers {

  /** The identity of a request is its (callback, context) pair. */
  datatype TimerKey = TimerKey(callback: int, context: int)

  /** `serial` numbers the requests in the order in which they were made. */
  datatype Timer = Timer(when: int, key: TimerKey, serial: nat)

  type Queue = seq<Timer>

  /** Earlier deadline first; equal deadlines in request order. */
  predicate Before(a: Timer, b: Timer) {
    a.when < b.when || (a.when == b.when && a.serial < b.serial)
  }

  ghost predicate Ordered(q: Queue) {
    forall i, j :: 0 <= i < j < |q| ==> Before(q[i], q[j])
  }

  ghost predicate DistinctKeys(q: Queue) {
    forall i, j :: 0 <= i < j < |q| ==> q[i].key != q[j].key
  }

  ghost predicate HasKey(q: Queue, k: TimerKey) {
    exists i :: 0 <= i < |q| && q[i].key == k
  }

  /** The first entry with key `k`, or |q|. */
  function Find(q: Queue, k: TimerKey): (i: nat)
    ensures i <= |q|
    ensures i < |q| ==> q[i].key == k
    ensures forall j :: 0 <= j < i ==> q[j].key != k
  {
    if q == [] || q[0].key == k then 0 else 1 + Find(q[1..], k)
  }

  function Remove(q: Queue, k: TimerKey): Queue {
    var i := Find(q, k);
    if i < |q| then q[..i] + q[i + 1..] else q
  }

  /** The position in front of the first entry that is due strictly later. */
  function Slot(q: Queue, when: int): (i: nat)
    ensures i <= |q|
    ensures i < |q| ==> when < q[i].when
    ensures forall j :: 0 <= j < i ==> q[j].when <= when
  {
    if q == [] || when < q[0].when then 0 else 1 + Slot(q[1..], when)
  }

  function Insert(q: Queue, t: Timer): Queue {
    var i := Slot(q, t.when);
    q[..i] + [t] + q[i..]
  }

  /** The queue, the cached time of day and the number of requests so far. */
  datatype TimerState = TimerState(queue: Queue, present: int, next: nat)

  function Request(ts: TimerState, k: TimerKey, delay: nat, now: int): TimerState {
    TimerState(Insert(Remove(ts.queue, k), Timer(now + delay, k, ts.next)), now, ts.next + 1)
  }

  function Cancel(ts: TimerState, k: TimerKey): TimerState {
    ts.(queue := Remove(ts.queue, k))
  }

  /** What event_cancel_timer returns. */
  function TimeLeft(ts: TimerState, k: TimerKey): int {
    var i := Find(ts.queue, k);
    if i == |ts.queue| then -1
    else if ts.queue[i].when < ts.present then 0
    else ts.queue[i].when - ts.present
  }

  ghost predicate Valid(ts: TimerState) {
    && Ordered(ts.queue)
    && DistinctKeys(ts.queue)
    && forall i :: 0 <= i < |ts.queue| ==> ts.queue[i].serial < ts.next
  }

  /** Removing a key drops exactly the one entry that carries it. */
  lemma RemoveExact(q: Queue, k: TimerKey)
    requires DistinctKeys(q)
    ensures DistinctKeys(Remove(q, k)) && !HasKey(Remove(q, k), k)
    ensures Ordered(q) ==> Ordered(Remove(q, k))
    ensures forall t :: t in Remove(q, k) <==> t in q && t.key != k
    ensures forall k' :: k' != k ==> (HasKey(Remove(q, k), k') <==> HasKey(q, k'))
  {
    var i, r := Find(q, k), Remove(q, k);
    if i < |q| {
      assert forall j :: 0 <= j < i ==> r[j] == q[j];
      assert forall j :: i <= j < |r| ==> r[j] == q[j + 1];
      forall t | t in q && t.key != k ensures t in r {
        var j :| 0 <= j < |q| && q[j] == t;
        assert r[if j < i then j else j - 1] == t;
      }
      forall k' | k' != k && HasKey(q, k') ensures HasKey(r, k') {
        var j :| 0 <= j < |q| && q[j].key == k';
        assert q[j] in r;
      }
    } else {
      assert forall j :: 0 <= j < |q| ==> q[j].key != k;
    }
  }

  /** Inserting the newest request keeps the order. */
  lemma InsertOrdered(q: Queue, t: Timer)
    requires Ordered(q)
    requires forall i :: 0 <= i < |q| ==> q[i].serial < t.serial
    ensures Ordered(Insert(q, t))
  {
    var s, r := Slot(q, t.when), Insert(q, t);
    forall i, j | 0 <= i < j < |r| ensures Before(r[i], r[j]) {
      if j < s {
        assert r[i] == q[i] && r[j] == q[j];
      } else if j == s {
        assert r[i] == q[i] && r[j] == t;
      } else if i < s {
        assert r[i] == q[i] && r[j] == q[j - 1];
      } else if i == s {
        assert r[i] == t && r[j] == q[j - 1];
        if s < j - 1 { assert Before(q[s], q[j - 1]); }
      } else {
        assert r[i] == q[i - 1] && r[j] == q[j - 1];
      }
    }
  }

  /** Inserting adds exactly the new entry. */
  lemma InsertMembers(q: Queue, t: Timer)
    ensures forall u :: u in Insert(q, t) <==> u in q || u == t
    ensures forall k :: HasKey(Insert(q, t), k) <==> HasKey(q, k) || k == t.key
  {
    var s, r := Slot(q, t.when), Insert(q, t);
    forall u | u in q || u == t ensures u in r {
      if u == t { assert r[s] == u; }
    }
    forall k | HasKey(q, k) ensures HasKey(r, k) {
      var j :| 0 <= j < |q| && q[j].key == k;
      assert r[if j < s then j else j + 1].key == k;
    }
    assert r[s].key == t.key;
  }

  lemma InsertDistinct(q: Queue, t: Timer)
    requires DistinctKeys(q) && !HasKey(q, t.key)
    ensures DistinctKeys(Insert(q, t))
  {
    var s, r := Slot(q, t.when), Insert(q, t);
    assert forall j :: 0 <= j < |r| ==> r[j] == if j < s then q[j] else if j == s then t else q[j - 1];
  }

  /** A request keeps the queue a stable priority queue with one entry per key;
      asking again for a queued key moves its entry. */
  lemma RequestExact(ts: TimerState, k: TimerKey, delay: nat, now: int)
    requires Valid(ts)
    ensures var ts' := Request(ts, k, delay, now);
      && Valid(ts')
      && (forall t :: t in ts'.queue <==>
            (t in ts.queue && t.key != k) || t == Timer(now + delay, k, ts.next))
      && (forall k' :: HasKey(ts'.queue, k') <==> HasKey(ts.queue, k') || k' == k)
  {
    RemoveExact(ts.queue, k);
    var q := Remove(ts.queue, k);
    forall i | 0 <= i < |q| ensures q[i].serial < ts.next && q[i].key != k {
      assert q[i] in q;
    }
    var t := Timer(now + delay, k, ts.next);
    InsertOrdered(q, t);
    InsertMembers(q, t);
    InsertDistinct(q, t);
    forall i | 0 <= i < |Insert(q, t)| ensures Insert(q, t)[i].serial < ts.next + 1 {
      assert Insert(q, t)[i] in Insert(q, t);
      if Insert(q, t)[i] != t { assert Insert(q, t)[i] in ts.queue; }
    }
  }

  /** A cancel keeps the queue valid and removes exactly the entry for `k`. */
  lemma CancelExact(ts: TimerState, k: TimerKey)
    requires Valid(ts)
    ensures var ts' := Cancel(ts, k);
      && Valid(ts')
      && (forall t :: t in ts'.queue <==> t in ts.queue && t.key != k)
      && (forall k' :: HasKey(ts'.queue, k') <==> HasKey(ts.queue, k') && k' != k)
  {
    RemoveExact(ts.queue, k);
    var q := Remove(ts.queue, k);
    forall i | 0 <= i < |q| ensures q[i].serial < ts.next { assert q[i] in q; }
  }

  /** A cancelled request has this much time left: -1 if there is none, otherwise
      what is left until its deadline, and nothing once that has passed. */
  lemma TimeLeftExact(ts: TimerState, k: TimerKey)
    requires Valid(ts)
    ensures TimeLeft(ts, k) == -1 <==> !HasKey(ts.queue, k)
    ensures forall t :: t in ts.queue && t.key == k ==>
      TimeLeft(ts, k) == if t.when > ts.present then t.when - ts.present else 0
  {
    var i := Find(ts.queue, k);
    forall t | t in ts.queue && t.key == k ensures i < |ts.queue| && ts.queue[i] == t {
      var j :| 0 <= j < |ts.queue| && ts.queue[j] == t;
      assert i <= j;
    }
    if i < |ts.queue| { assert ts.queue[i] in ts.queue; }
  }

  /** A request just made has all of its delay left, and one made before has lost
      the time that has passed: a request reads the clock. */
  lemma RequestedTimeLeft(ts: TimerState, k: TimerKey, delay: nat, now: int, k': TimerKey, delay': nat, now': int)
    requires Valid(ts) && k != k' && now <= now'
    ensures TimeLeft(Request(ts, k, delay, now), k) == delay
    ensures TimeLeft(Request(Request(ts, k, delay, now), k', delay', now'), k)
         == if delay > now' - now then delay - (now' - now) else 0
  {
    var t := Timer(now + delay, k, ts.next);
    var ts1 := Request(ts, k, delay, now);
    RequestExact(ts, k, delay, now);
    RequestExact(ts1, k', delay', now');
    assert t in ts1.queue && t in Request(ts1, k', delay', now').queue;
    TimeLeftExact(ts1, k);
    TimeLeftExact(Request(ts1, k', delay', now'), k);
  }

  lemma FirstLeast(q: Queue, t: Timer)
    requires Ordered(q) && t in q
    ensures q[0] == t || Before(q[0], t)
  {
    var i :| 0 <= i < |q| && q[i] == t;
    if i > 0 { assert Before(q[0], q[i]); }
  }

  /** Order and membership determine the queue: any two ordered queues with the
      same entries are equal, so the results above leave no freedom. */
  lemma {:induction false} OrderedUnique(p: Queue, q: Queue)
    requires Ordered(p) && Ordered(q)
    requires forall t :: t in p <==> t in q
    ensures p == q
  {
    assert q != [] ==> q[0] in p;
    assert p != [] ==> p[0] in q;
    if p == [] {
    } else {
      FirstLeast(p, q[0]);
      FirstLeast(q, p[0]);
      forall t ensures t in p[1..] <==> t in q[1..] {
        if t in p[1..] {
          var a :| 1 <= a < |p| && p[a] == t;
          assert Before(p[0], t) && t in q;
        }
        if t in q[1..] {
          var a :| 1 <= a < |q| && q[a] == t;
          assert Before(q[0], t) && t in p;
        }
      }
      OrderedUnique(p[1..], q[1..]);
      assert p == [p[0]] + p[1..] && q == [q[0]] + q[1..];
    }
  }

  /** How long event_wait sleeps; negative means until something happens. It
      never sleeps past a deadline or the caller's limit, wakes at once when a
      timer is overdue, and sleeps no less than one of these allows. */
  function SelectDelay(ts: TimerState, delay: int): (d: int)
    requires Ordered(ts.queue)
    ensures d < 0 <==> ts.queue == [] && delay < 0
    ensures forall t :: t in ts.queue ==> d == 0 || ts.present + d <= t.when
    ensures delay >= 0 ==> d <= delay
    ensures d > 0 ==> d == delay || exists t :: t in ts.queue && ts.present + d == t.when
    ensures d == 0 ==> delay == 0 || exists t :: t in ts.queue && t.when <= ts.present
  {
    if ts.queue == [] then delay
    else
      var t := ts.queue[0];
      assert t in ts.queue;
      var left := t.when - ts.present;
      if left < 0 then 0 else if delay >= 0 && left > delay then delay else left
  }
}
