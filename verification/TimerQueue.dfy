/** event_request_timer, event_cancel_timer and the timer loop of event_wait
    (src/util/events.c) on the intrusive ring, refining the queue of Timers. */
module TimerQueue {
  import opened Timers
  import opened Options
  import opened Rings
  import opened Seqs
  import opened TimerRuns

  type Node = Ring<Timer>

  class TimerQueue {
    var head: Node
    var present: int
    var next: nat
    ghost var nodes: seq<Node>    // the ring without its head
    ghost var items: Queue        // what the nodes carry
    ghost var freed: set<Node>    // nodes given back to the allocator
    ghost var repr: set<Node>     // the head and every node ever in the ring

    /** The nodes form one ring with the head, and none of them has been freed. */
    ghost predicate Valid()
      reads this, repr
    {
      Shape(head, nodes, items, freed, repr)
    }

    ghost function State(): TimerState
      reads this
    {
      TimerState(items, present, next)
    }

    /** event_time_init */
    constructor (now: int)
      ensures Valid() && fresh(repr)
      ensures State() == TimerState([], now, 0) && freed == {}
    {
      head := new Ring<Timer>(None);
      present, next, nodes, items, freed := now, 0, [], [], {};
      new;
      repr := {head};
      Rings.Init(head);
      assert [head] + nodes == [head];
    }

    /** The node after position i of the ring, counting the head as position 0. */
    lemma Successor(i: nat)
      requires Valid() && i <= |nodes|
      ensures (if i == 0 then head else nodes[i - 1]).succ == if i < |nodes| then nodes[i] else head
    {
      var all := [head] + nodes;
      assert all[i].succ == all[After(i, |all|)];
    }

    lemma HeadApart()
      requires Valid()
      ensures head !in nodes
    {
      var all := [head] + nodes;
      Apart(all, 0);
      forall i | 0 <= i < |nodes| ensures nodes[i] != head {
        assert all[i + 1] != all[0];
      }
    }

    /** FOREACH_QUEUE_ENTRY, looking for a key: the node that carries it, or the head. */
    method FindNode(key: TimerKey) returns (ring: Node, ghost i: nat)
      requires Valid()
      ensures ring == if Find(items, key) < |nodes| then nodes[Find(items, key)] else head
      ensures i == Find(items, key)
    {
      HeadApart();
      i := 0;
      Successor(0);
      ring := head.succ;
      while ring != head
        invariant i <= |nodes|
        invariant ring == if i < |nodes| then nodes[i] else head
        invariant forall j :: 0 <= j < i ==> items[j].key != key
        decreases |nodes| - i
      {
        if ring.item.value.key == key { break; }
        Successor(i + 1);
        ring := ring.succ;
        i := i + 1;
      }
      FindIs(items, key, i);
    }

    /** FOREACH_QUEUE_ENTRY, looking for the first node that is due strictly later. */
    method FindSlot(when: int) returns (ring: Node, ghost i: nat)
      requires Valid()
      ensures ring == if Slot(items, when) < |nodes| then nodes[Slot(items, when)] else head
      ensures i == Slot(items, when)
    {
      HeadApart();
      i := 0;
      Successor(0);
      ring := head.succ;
      while ring != head
        invariant i <= |nodes|
        invariant ring == if i < |nodes| then nodes[i] else head
        invariant forall j :: 0 <= j < i ==> items[j].when <= when
        decreases |nodes| - i
      {
        if when < ring.item.value.when { break; }
        Successor(i + 1);
        ring := ring.succ;
        i := i + 1;
      }
      SlotIs(items, when, i);
    }

    /** ring_detach on the node at position i of `nodes`. */
    method Unlink(ring: Node, ghost i: nat)
      requires Valid() && i < |nodes| && nodes[i] == ring
      modifies `nodes, `items, repr`succ, repr`pred
      ensures Valid() && ring !in nodes && ring != head
      ensures nodes == Deleted(old(nodes), i) && items == Deleted(old(items), i)
    {
      ghost var all := [head] + nodes;
      assert Deleted(all, i + 1) == [head] + Deleted(nodes, i);
      DeletedAt(all, i + 1);
      Rings.Detach(ring, all, i + 1);
      nodes, items := Deleted(nodes, i), Deleted(items, i);
    }

    /** ring_prepend of a node in front of position i of `nodes`. */
    method Link(ring: Node, node: Node, t: Timer, ghost i: nat)
      requires Valid() && i <= |nodes| && ring == (if i < |nodes| then nodes[i] else head)
      requires node !in nodes && node != head && node !in freed && node.item == Some(t)
      modifies `nodes, `items, `repr, repr`succ, repr`pred, node`succ, node`pred
      ensures Valid() && repr == old(repr) + {node}
      ensures nodes == Inserted(old(nodes), i, node) && items == Inserted(old(items), i, t)
    {
      ghost var all := [head] + nodes;
      ghost var at := if i == |nodes| then 0 else i + 1;
      assert Inserted(all, if at == 0 then |all| else at, node) == [head] + Inserted(nodes, i, node);
      Prepend(ring, node, all, at);
      repr := repr + {node};
      nodes, items := Inserted(nodes, i, node), Inserted(items, i, t);
      assert forall j :: 0 <= j < |nodes| ==> nodes[j].item == Some(items[j]) by {
        ItemsInserted(old(nodes), old(items), i, node, t);
      }
    }

    /** First half of event_request_timer: the node of a request that is being
        reset, taken off the ring, or a new node. */
    method TakeOrMake(t: Timer) returns (node: Node)
      requires Valid()
      modifies `nodes, `items, repr
      ensures Valid() && items == Remove(old(items), t.key)
      ensures node !in nodes && node != head && node !in freed && node.item == Some(t)
      ensures node in old(nodes) || fresh(node)
      ensures forall n :: n in nodes ==> n in old(nodes)
    {
      var ring, i := FindNode(t.key);
      HeadApart();
      if ring != head {
        Unlink(ring, i);
        ring.item := Some(t);
        node := ring;
      } else {
        node := new Ring<Timer>(Some(t));
      }
    }

    /** Second half: the node goes in front of the first one due strictly later. */
    method Place(node: Node, t: Timer)
      requires Valid() && node !in nodes && node != head && node !in freed && node.item == Some(t)
      modifies `nodes, `items, `repr, repr`succ, repr`pred, node`succ, node`pred
      ensures Valid() && repr == old(repr) + {node} && items == Insert(old(items), t)
      ensures forall n :: n in nodes ==> n in old(nodes) || n == node
    {
      var place, i := FindSlot(t.when);
      Link(place, node, t, i);
    }

    /** The request goes to its place, from its old one if it had one. */
    method Enqueue(t: Timer)
      requires Valid()
      modifies `nodes, `items, `repr, repr
      ensures Valid() && items == Insert(Remove(old(items), t.key), t)
      ensures old(repr) <= repr && fresh(repr - old(repr))
      ensures forall n :: n in nodes ==> n in old(nodes) || fresh(n)
    {
      var node := TakeOrMake(t);
      Place(node, t);
    }

    /** event_request_timer */
    method RequestTimer(key: TimerKey, delay: nat, now: int) returns (when: int)
      requires Valid()
      modifies this, repr
      ensures Valid() && State() == Request(old(State()), key, delay, now) && when == now + delay
      ensures freed == old(freed) && old(repr) <= repr && fresh(repr - old(repr)) && head == old(head)
      ensures forall n :: n in nodes ==> n in old(nodes) || fresh(n)
    {
      when := now + delay;
      var t := Timer(when, key, next);
      present, next := now, next + 1;
      Enqueue(t);
    }

    /** event_cancel_timer */
    method CancelTimer(key: TimerKey) returns (timeLeft: int)
      requires Valid()
      modifies this, repr
      ensures Valid() && State() == Cancel(old(State()), key) && timeLeft == TimeLeft(old(State()), key)
      ensures repr == old(repr) && head == old(head)
      ensures forall n :: n in nodes ==> n in old(nodes)
      ensures freed == old(freed) + set n | n in old(nodes) && n !in nodes
    {
      HeadApart();
      timeLeft := -1;
      var ring, i := FindNode(key);
      if ring != head {
        timeLeft := ring.item.value.when - present;
        if timeLeft < 0 { timeLeft := 0; }
        Unlink(ring, i);
        Release(ring);
        DeletedMember(old(nodes), i);
      }
    }

    /** A callback at work, while the entry that triggered it is detached: it may
        request and cancel that very key, and still never touches the entry. */
    method RunCallback(calls: seq<Call>, ghost entry: Node)
      requires Valid() && entry in repr && entry != head && entry !in nodes && entry !in freed
      modifies this, repr
      ensures Valid() && entry in repr && entry != head && entry !in nodes && entry !in freed
      ensures State() == ObeyAll(old(State()), calls)
      ensures old(repr) <= repr && fresh(repr - old(repr)) && head == old(head) && old(freed) <= freed
    {
      var i := 0;
      while i < |calls|
        invariant 0 <= i <= |calls|
        invariant Valid() && entry in repr && entry != head && entry !in nodes && entry !in freed
        invariant ObeyAll(State(), calls[i..]) == ObeyAll(old(State()), calls)
        invariant old(repr) <= repr && fresh(repr - old(repr)) && head == old(head) && old(freed) <= freed
      {
        assert calls[i..][0] == calls[i] && calls[i..][1..] == calls[i + 1..];
        match calls[i] {
          case CallRequest(key, delay, now) => var _ := RequestTimer(key, delay, now);
          case CallCancel(key) => var _ := CancelTimer(key);
        }
        i := i + 1;
      }
    }

    /** One round of the timer loop: the entry is off the ring before its
        callback runs, and is freed once, after it. */
    method FireFirst(entry: Node, calls: seq<Call>)
      requires Valid() && nodes != [] && nodes[0] == entry
      modifies this, repr
      ensures Valid() && entry !in nodes && entry in freed
      ensures State() == ObeyAll(old(State()).(queue := old(items)[1..]), calls)
      ensures old(repr) <= repr && fresh(repr - old(repr)) && head == old(head) && old(freed) <= freed
    {
      Unlink(entry, 0);
      assert items == old(items)[1..];
      RunCallback(calls, entry);
      Release(entry);
    }

    /** The timer loop of event_wait; `done` tells whether it has ended, or goes on
        with the callbacks after those in `scripts`. */
    method FireDue(now: int, scripts: seq<seq<Call>>) returns (done: bool)
      requires Valid()
      modifies this, repr
      ensures Valid() && State() == Loop(old(State()).(present := now), scripts)
      ensures done <==> items == [] || items[0].when > present
      ensures old(freed) <= freed && fresh(repr - old(repr)) && head == old(head)
    {
      present := now;
      var k := 0;
      while k < |scripts|
        invariant 0 <= k <= |scripts| && Valid()
        invariant Loop(State(), scripts[k..]) == Loop(old(State()).(present := now), scripts)
        invariant old(freed) <= freed && old(repr) <= repr && fresh(repr - old(repr)) && head == old(head)
      {
        var due, ring := First();
        if !due { break; }
        assert scripts[k..][0] == scripts[k] && scripts[k..][1..] == scripts[k + 1..];
        FireFirst(ring, scripts[k]);
        k := k + 1;
      }
      var due, _ := First();
      done := !due;
    }

    /** FIRST_TIMER, and whether it is due. */
    method First() returns (due: bool, ring: Node)
      requires Valid()
      ensures due <==> items != [] && items[0].when <= present
      ensures due ==> nodes != [] && ring == nodes[0]
    {
      HeadApart();
      Successor(0);
      ring := head.succ;
      due := ring != head && ring.item.value.when <= present;
    }

    /** myfree: a node is given back once, and not while it is in the ring. */
    ghost method Release(node: Node)
      requires Valid() && node !in nodes && node != head && node !in freed
      modifies `freed
      ensures Valid() && freed == old(freed) + {node}
    {
      freed := freed + {node};
    }
  }

  ghost predicate Shape(head: Node, nodes: seq<Node>, items: Queue, freed: set<Node>, repr: set<Node>)
    reads repr
  {
    && head in repr && (forall n :: n in nodes ==> n in repr)
    && IsRing([head] + nodes)
    && |items| == |nodes| && (forall i :: 0 <= i < |nodes| ==> nodes[i].item == Some(items[i]))
    && head !in freed && (forall n :: n in nodes ==> n !in freed)
  }

  lemma ItemsInserted(nodes: seq<Node>, items: Queue, i: nat, node: Node, t: Timer)
    requires |items| == |nodes| && i <= |nodes| && node.item == Some(t)
    requires forall j :: 0 <= j < |nodes| ==> nodes[j].item == Some(items[j])
    ensures var ns, ts := Inserted(nodes, i, node), Inserted(items, i, t);
      |ns| == |ts| && forall j :: 0 <= j < |ns| ==> ns[j].item == Some(ts[j])
  {}

  lemma {:induction false} FindIs(q: Queue, k: TimerKey, i: nat)
    requires i <= |q| && (i < |q| ==> q[i].key == k) && forall j :: 0 <= j < i ==> q[j].key != k
    ensures Find(q, k) == i
  {
    if i < |q| && Find(q, k) < |q| {
      assert q[Find(q, k)].key == k;
    }
  }

  lemma {:induction false} SlotIs(q: Queue, when: int, i: nat)
    requires i <= |q| && (i < |q| ==> when < q[i].when) && forall j :: 0 <= j < i ==> q[j].when <= when
    ensures Slot(q, when) == i
  {
    var k := Slot(q, when);
    assert k < |q| ==> when < q[k].when;
  }
}
