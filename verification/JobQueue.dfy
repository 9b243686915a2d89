/** The job queue of src/util/thpool.c on the intrusive ring: the sequential code
    inside the critical sections that ThreadPool takes as single steps. */
module JobQueue {
  import opened Options
  import opened Seqs
  import opened Rings
  import P = ThreadPool

  type Node = Ring<nat>

  class JobQueue {
    const head: Node
    var len: int
    var sem: int                  // the value of queue_sem
    ghost var nodes: seq<Node>    // the ring without its head
    ghost var jobs: seq<nat>      // what the nodes carry
    ghost var repr: set<Node>

    ghost predicate Valid()
      reads this, repr
    {
      len == |jobs| && Shape(head, nodes, jobs, repr)
    }

    /** This is the job queue of pool p. */
    ghost predicate IsQueueOf(p: P.Pool)
      reads this
    {
      p.ring == jobs && p.len == len && p.sem == sem
    }

    /** thpool_jobqueue_init */
    constructor ()
      ensures Valid() && fresh(repr) && jobs == [] && sem == 0
    {
      head := new Ring<nat>(None);
      len, sem, nodes, jobs := 0, 0, [], [];
      new;
      repr := {head};
      Rings.Init(head);
      assert [head] + nodes == [head];
    }

    /** thpool_jobqueue_push: the job goes in front of the head, that is last, and
        the semaphore is posted. */
    method Push(job: nat)
      requires Valid()
      modifies this, repr
      ensures Valid() && jobs == old(jobs) + [job] && sem == 1 && fresh(repr - old(repr))
      ensures forall p: P.Pool :: old(IsQueueOf(p)) && p.submitted == job ==> IsQueueOf(P.Submitted(p))
    {
      var node := new Ring<nat>(Some(job));
      ghost var all := [head] + nodes;
      assert Inserted(all, |all|, node) == [head] + (nodes + [node]);
      Prepend(head, node, all, 0);
      repr := repr + {node};
      nodes, jobs := nodes + [node], jobs + [job];
      len := len + 1;
      sem := 1;
    }

    /** thpool_jobqueue_pull: the oldest job; the semaphore is posted again when
        more are left. On an empty queue the head itself is detached, and the
        ring is no ring any more. */
    method Pull() returns (job: Option<nat>)
      requires Valid()
      modifies this, repr
      ensures old(jobs) != [] ==>
        && Valid() && job == Some(old(jobs)[0]) && jobs == old(jobs)[1..] && repr == old(repr)
        && sem == if |old(jobs)| > 1 then 1 else old(sem)
      ensures forall p: P.Pool, i: nat ::
        old(IsQueueOf(p)) && i < |p.workers| && p.ring != [] ==> IsQueueOf(PullSection(p, i))
      ensures old(jobs) == [] ==>
        && job == None && head.succ == null && head.pred == null && !Valid()
        && len == 0 && sem == old(sem)
    {
      ghost var all := [head] + nodes;
      assert all[0].succ == all[After(0, |all|)];
      var node := head.succ;
      job := node.item;
      assert jobs != [] ==> node == nodes[0] && Deleted(all, 1) == [head] + nodes[1..];
      assert jobs == [] ==> all == [head];
      Detach(node, all, if jobs == [] then 0 else 1);
      if jobs != [] {
        nodes, jobs := nodes[1..], jobs[1..];
      } else {
        assert all[0] == head && head.succ != all[After(0, |all|)];
      }
      if len == 1 {
        len := 0;
      } else if len != 0 {
        len := len - 1;
        sem := 1;
      }
    }

    /** thpool_jobqueue_clear */
    method Clear()
      requires Valid()
      modifies this, repr
      ensures Valid() && jobs == [] && sem == 0
    {
      while len != 0
        invariant Valid() && repr == old(repr)
        decreases |jobs|
      {
        var _ := Pull();
      }
      sem := 0;
      len := 0;
    }
  }

  /** The critical section of a pull: the step Pulling, and Posting if it comes to that. */
  function PullSection(p: P.Pool, i: nat): P.Pool
    requires i < |p.workers|
  {
    var q := P.Pull(p, i);
    if q.workers[i].Posting? then P.At(q, i, P.Running(q.workers[i].job)).(sem := 1, lock := P.Unlocked) else q
  }

  ghost predicate Shape(head: Node, nodes: seq<Node>, jobs: seq<nat>, repr: set<Node>)
    reads repr
  {
    && head in repr && (forall n :: n in nodes ==> n in repr)
    && IsRing([head] + nodes) && head.item == None
    && |jobs| == |nodes| && (forall i :: 0 <= i < |nodes| ==> nodes[i].item == Some(jobs[i]))
  }
}
