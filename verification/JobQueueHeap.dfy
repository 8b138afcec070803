/** The job queue of thpool.c on the heap: nodes linked from front along prev. */
module JobQueueHeap {
  import opened PoolModel

  /** jobqueue_pull from first to last write, as the steps of the pool make it: the queue
      it leaves, the job it returns and whether it posts the semaphore. */
  function PullWhole(q: JobQueue): (JobQueue, Option<Job>, bool) {
    var log := Log([], [], [], multiset{});
    var (q1, _, p1) := StepPull(q, log, 0, PullFront);
    match p1
    case Pulling(PullLen(job, more)) => (StepPull(q1, log, 0, PullLen(job, more)).0, Some(job), more)
    case _ => (q1, None, false)
  }

  /** jobqueue_push likewise; it always posts. */
  function PushWhole(q: JobQueue, job: Job): JobQueue {
    var log := Log([], [], [], multiset{});
    StepPush(StepPush(q, log, 0, PushLink(job)).0, log, 0, PushLen).0
  }

  predicate Steady(q: JobQueue) { q.len == |q.chain| }

  /** What the steps of a pull and of a push amount to when nobody interferes. */
  lemma WholeOperations(q: JobQueue, job: Job)
    requires Steady(q)
    ensures PushWhole(q, job) == q.(chain := q.chain + [job], len := q.len + 1)
    ensures q.chain == [] ==> PullWhole(q) == (q, None, false)
    ensures q.chain != [] ==>
              PullWhole(q) == (q.(chain := q.chain[1..], len := q.len - 1), Some(q.chain[0]), |q.chain| > 1)
  {
    if |q.chain| == 1 {
      assert q.chain[1..] == [];
    }
  }

  class BinarySemaphore {
    var v: int

    /** bsem_init ends the program for any other value. */
    constructor (value: int)
      requires 0 <= value <= 1
      ensures v == value
    {
      v := value;
    }

    method Post()
      modifies this
      ensures v == 1
    {
      v := 1;
    }

    method Reset()
      modifies this
      ensures v == 0
    {
      v := 0;
    }
  }

  class JobNode {
    var prev: JobNode?
    const job: Job

    constructor (job: Job)
      ensures this.job == job
    {
      this.job := job;
      prev := null;
    }
  }

  ghost function JobsOn(ns: seq<JobNode>): (jobs: seq<Job>)
    ensures |jobs| == |ns| && forall i :: 0 <= i < |ns| ==> jobs[i] == ns[i].job
  {
    if ns == [] then [] else [ns[0].job] + JobsOn(ns[1..])
  }

  lemma Shift(done: seq<JobNode>, left: seq<JobNode>)
    requires left != []
    ensures done + [left[0]] + left[1..] == done + left
  {
  }

  class Queue {
    var front: JobNode?
    var rear: JobNode?
    var len: int
    const hasJobs: BinarySemaphore
    ghost var nodes: seq<JobNode>  // the chain from front along prev

    /** The chain is acyclic, has len nodes, starts at front and ends at rear. */
    ghost predicate Valid()
      reads this, nodes
    {
      && len == |nodes|
      && front == (if nodes == [] then null else nodes[0])
      && rear == (if nodes == [] then null else nodes[|nodes| - 1])
      && (forall i :: 0 <= i < |nodes| - 1 ==> nodes[i].prev == nodes[i + 1])
      && (nodes != [] ==> nodes[|nodes| - 1].prev == null)
      && (forall i, j :: 0 <= i < j < |nodes| ==> nodes[i] != nodes[j])
    }

    ghost function Jobs(): seq<Job>
      reads this
    {
      JobsOn(nodes)
    }

    /** The queue as the pool's steps see it. */
    ghost function View(): JobQueue
      reads this
    {
      JobQueue(Free, Jobs(), len)
    }

    constructor ()
      ensures Valid() && fresh(hasJobs)
      ensures Jobs() == [] && hasJobs.v == 0
    {
      len := 0;
      front := null;
      rear := null;
      hasJobs := new BinarySemaphore(0);
      nodes := [];
    }

    method Push(newjob: JobNode)
      requires Valid() && newjob !in nodes
      modifies this, newjob, rear, hasJobs
      ensures Valid() && nodes == old(nodes) + [newjob]
      ensures View() == PushWhole(old(View()), newjob.job)
      ensures hasJobs.v == 1
    {
      newjob.prev := null;
      if len == 0 {
        front := newjob;
        rear := newjob;
      } else {
        rear.prev := newjob;
        rear := newjob;
      }
      len := len + 1;
      nodes := nodes + [newjob];
      hasJobs.Post();
      WholeOperations(old(View()), newjob.job);
      assert Jobs() == old(Jobs()) + [newjob.job];
    }

    /** The front node leaves the chain, and the semaphore is posted if others remain. */
    method Pull() returns (job: JobNode?)
      requires Valid()
      modifies this, hasJobs
      ensures Valid() && job == old(front)
      ensures job == null ==> nodes == old(nodes)
      ensures job != null ==> nodes == old(nodes)[1..]
      ensures hasJobs.v == if nodes != [] then 1 else old(hasJobs.v)
    {
      job := front;
      ghost var was := nodes;
      if len == 0 {
      } else if len == 1 {
        front := null;
        rear := null;
        len := 0;
        nodes := [];
      } else {
        front := job.prev;
        len := len - 1;
        nodes := nodes[1..];
        assert forall i :: 0 <= i < |nodes| ==> nodes[i] == was[i + 1];
        hasJobs.Post();
      }
    }

    /** A pull by a thread that holds the mutex is exactly the pool's steps of a pull. */
    method LockedPull() returns (job: JobNode?)
      requires Valid()
      modifies this, hasJobs
      ensures Valid()
      ensures (View(), if job == null then None else Some(job.job), nodes != []) == PullWhole(old(View()))
    {
      WholeOperations(View(), 0);
      ghost var was := Jobs();
      job := Pull();
      if job != null {
        assert Jobs() == was[1..];
      }
    }

    /** jobqueue_clear: every queued job is pulled once, in order, and dropped. */
    method Clear() returns (ghost dropped: seq<JobNode>)
      requires Valid()
      modifies this, hasJobs
      ensures Valid() && nodes == [] && hasJobs.v == 0
      ensures dropped == old(nodes)
    {
      dropped := [];
      while len != 0
        invariant Valid()
        invariant dropped + nodes == old(nodes)
        decreases len
      {
        ghost var was := nodes;
        var job := Pull();
        Shift(dropped, was);
        dropped := dropped + [was[0]];
      }
      front := null;
      rear := null;
      hasJobs.Reset();
      len := 0;
    }

    /** thpool_add_work: one new node at the rear. */
    method AddWork(job: Job)
      requires Valid()
      modifies this, rear, hasJobs
      ensures Valid() && Jobs() == old(Jobs()) + [job] && hasJobs.v == 1
      ensures fresh(nodes[|nodes| - 1])
    {
      var newjob := new JobNode(job);
      Push(newjob);
      WholeOperations(old(View()), job);
    }
  }
}
