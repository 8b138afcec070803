/** The thread pool of thpool.c as a system of atomic steps.

    Every thread is a program counter. Taking a mutex, releasing it, reading or
    writing a shared variable, parking on the condition variable and being woken
    are separate steps, so other threads may run between any two of them.
    Reads and writes are sequentially consistent, there is one pool, and a job
    that is started ends. Waiting on the condition variable releases the mutex and
    parks in one step, a signal wakes at least one parked thread, a broadcast wakes
    all of them and a parked thread may wake without a signal (POSIX.1-2017, System
    Interfaces, pthread_cond_wait and pthread_cond_signal). */
module PoolModel {

  /** A function with its argument. Two submissions may be equal values. */
  type Job = nat

  datatype Option<+T> = None | Some(value: T)

  // ---- Program counters ----

  /** A counter is changed in three steps: take thcount_lock, write, release it. */
  datatype CountAt = Enter | Write | Leave
  datatype Counter = Register | Busy | Done | Exit

  /** bsem_wait; Parked is inside pthread_cond_wait, Woken wants the mutex back. */
  datatype SemAt = SemLock | SemTest | Parked | Woken | SemTake | SemUnlock

  /** jobqueue_pull between the lock and the unlock of rwmutex, without its bsem_post. */
  datatype PullAt = PullLock | PullFront | PullLen(job: Job, more: bool) | PullUnlock(got: Option<Job>)

  /** thpool_add_work, without the bsem_post of jobqueue_push. */
  datatype PushAt = PushLock(job: Job) | PushLink(job: Job) | PushLen | PushUnlock

  /** jobqueue_clear, which pulls without the mutex, and its bsem_reset. */
  datatype ClearAt = ClearTest | ClearFront | ClearLen(more: bool) | ClearReset

  /** bsem_post and bsem_post_all, and where they were called from. */
  datatype PostAt = PostLock | PostSet | PostSignal | PostUnlock
  datatype Caller = InPush | InPull(job: Job) | InDestroy | InClear

  datatype Pc =
    // a worker, in thread_do
    | Counting(counter: Counter, count: CountAt)
    | LoopTest
    | Waiting(sem: SemAt)
    | InnerTest
    | Pulling(pull: PullAt)
    | Run(job: Job)
    | Exited
    // a caller of the pool
    | Idle
    | Pushing(push: PushAt)
    | DestroyTest
    | Emptying(clear: ClearAt)
    | Destroyed
    // either
    | Posting(caller: Caller, post: PostAt)

  // ---- Shared memory ----

  datatype Mutex = Free | Held(owner: nat)
  datatype Bsem = Bsem(mutex: Mutex, v: bool)
  datatype JobQueue = JobQueue(mutex: Mutex, chain: seq<Job>, len: int)
  datatype Counters = Counters(mutex: Mutex, alive: int, working: int)

  /** How far the pool's life has come: before thpool_init returns, in use, after
      thpool_destroy has been entered, and after it has seen no thread alive. */
  datatype Phase = Starting | Serving | Stopping(destroyer: nat) | Clearing(destroyer: nat)

  /** What has happened to the jobs. No thread reads this, nor the phase. */
  datatype Log = Log(pushed: seq<Job>, pulled: seq<Job>, discarded: seq<Job>, finished: multiset<Job>)

  datatype Memory = Memory(
    keepalive: bool,       // threads_keepalive
    counts: Counters,      // thcount_lock, num_threads_alive, num_threads_working
    queue: JobQueue,       // rwmutex, the chain from front along prev, len
    sem: Bsem,             // has_jobs
    phase: Phase,
    log: Log)

  /** The first n threads are the workers, the others call the pool. */
  datatype State = State(n: nat, m: Memory, threads: seq<Pc>)

  datatype Action =
    | Go(t: nat)                          // thread t performs its next instruction
    | Signal(t: nat, woken: set<nat>)     // thread t signals or broadcasts
    | InitReturn                          // thpool_init sees every worker alive
    | Spurious(t: nat)                    // thread t wakes without a signal
    | AddWork(t: nat, job: Job)           // thread t enters thpool_add_work
    | Destroy(t: nat)                     // thread t enters thpool_destroy

  predicate IsWorkerPc(p: Pc) {
    match p
    case Idle | Pushing(_) | DestroyTest | Emptying(_) | Destroyed => false
    case Posting(c, _) => c.InPull?
    case _ => true
  }

  const FRESH_MEMORY := Memory(true, Counters(Free, 0, 0), JobQueue(Free, [], 0), Bsem(Free, false),
                              Starting, Log([], [], [], multiset{}))

  predicate Init(s: State) {
    && s.n <= |s.threads|
    && (forall i :: 0 <= i < |s.threads| ==> s.threads[i] == if i < s.n then Counting(Register, Enter) else Idle)
    && s.m == FRESH_MEMORY
  }

  // ---- Instructions ----

  /** Can a thread at p perform its next instruction? */
  predicate Runnable(m: Memory, p: Pc) {
    match p
    case Counting(_, Enter) => m.counts.mutex.Free?
    case Pulling(PullLock) => m.queue.mutex.Free?
    case Pushing(PushLock(_)) => m.queue.mutex.Free?
    case Waiting(at) => if at.SemLock? || at.Woken? then m.sem.mutex.Free? else !at.Parked?
    case Posting(_, at) => if at.PostLock? then m.sem.mutex.Free? else !at.PostSignal?
    case Idle | Exited | Destroyed => false
    case _ => true
  }

  function AfterCount(c: Counter): Pc {
    match c
    case Register => LoopTest
    case Busy => Pulling(PullLock)
    case Done => LoopTest
    case Exit => Exited
  }

  function StepCount(c: Counters, t: nat, w: Counter, at: CountAt): (Counters, Pc)
  {
    match at
    case Enter => (c.(mutex := Held(t)), Counting(w, Write))
    case Write =>
      (match w
       case Register => c.(alive := c.alive + 1)
       case Busy => c.(working := c.working + 1)
       case Done => c.(working := c.working - 1)
       case Exit => c.(alive := c.alive - 1),
       Counting(w, Leave))
    case Leave => (c.(mutex := Free), AfterCount(w))
  }

  function StepWait(b: Bsem, t: nat, at: SemAt): (Bsem, Pc)
    requires !at.Parked?
  {
    match at
    case SemLock => (b.(mutex := Held(t)), Waiting(SemTest))
    case SemTest => if b.v then (b, Waiting(SemTake)) else (b.(mutex := Free), Waiting(Parked))
    case Woken => (b.(mutex := Held(t)), Waiting(SemTest))
    case SemTake => (b.(v := false), Waiting(SemUnlock))
    case SemUnlock => (b.(mutex := Free), InnerTest)
  }

  /** Where a thread continues once its bsem_post has released the mutex. */
  function AfterPost(c: Caller): Pc {
    match c
    case InPush => Pushing(PushUnlock)
    case InPull(job) => Pulling(PullUnlock(Some(job)))
    case InDestroy => DestroyTest
    case InClear => Emptying(ClearTest)
  }

  function StepPost(b: Bsem, t: nat, c: Caller, at: PostAt): (Bsem, Pc)
    requires !at.PostSignal?
  {
    match at
    case PostLock => (b.(mutex := Held(t)), Posting(c, PostSet))
    case PostSet => (b.(v := true), Posting(c, PostSignal))
    case PostUnlock => (b.(mutex := Free), AfterPost(c))
  }

  /** The chain once its front has been unlinked: a chain whose len is 1 becomes empty,
      a longer one starts at the front's prev. */
  function Unlinked(q: JobQueue): seq<Job>
    requires q.chain != []
  {
    if q.len == 1 then [] else q.chain[1..]
  }

  /** A queue whose len is 0 gives no job. (A chain cannot be empty with another len.) */
  function StepPull(q: JobQueue, l: Log, t: nat, at: PullAt): (JobQueue, Log, Pc) {
    match at
    case PullLock => (q.(mutex := Held(t)), l, Pulling(PullFront))
    case PullFront =>
      if q.len == 0 || q.chain == [] then (q, l, Pulling(PullUnlock(None)))
      else (q.(chain := Unlinked(q)), l.(pulled := l.pulled + [q.chain[0]]),
            Pulling(PullLen(q.chain[0], q.len != 1)))
    case PullLen(job, more) =>
      if more then (q.(len := q.len - 1), l, Posting(InPull(job), PostLock))
      else (q.(len := 0), l, Pulling(PullUnlock(Some(job))))
    case PullUnlock(got) =>
      (q.(mutex := Free), l, if got.Some? then Run(got.value) else Counting(Done, Enter))
  }

  function StepPush(q: JobQueue, l: Log, t: nat, at: PushAt): (JobQueue, Log, Pc) {
    match at
    case PushLock(job) => (q.(mutex := Held(t)), l, Pushing(PushLink(job)))
    case PushLink(job) => (q.(chain := q.chain + [job]), l.(pushed := l.pushed + [job]), Pushing(PushLen))
    case PushLen => (q.(len := q.len + 1), l, Posting(InPush, PostLock))
    case PushUnlock => (q.(mutex := Free), l, Idle)
  }

  function StepClear(q: JobQueue, l: Log, b: Bsem, at: ClearAt): (JobQueue, Log, Bsem, Pc) {
    match at
    case ClearTest => (q, l, b, Emptying(if q.len != 0 then ClearFront else ClearReset))
    case ClearFront =>
      if q.chain == [] then (q, l, b, Emptying(ClearTest))
      else (q.(chain := Unlinked(q)), l.(discarded := l.discarded + [q.chain[0]]), b,
            Emptying(ClearLen(q.len != 1)))
    case ClearLen(more) =>
      if more then (q.(len := q.len - 1), l, b, Posting(InClear, PostLock))
      else (q.(len := 0), l, b, Emptying(ClearTest))
    case ClearReset => (q.(chain := [], len := 0), l, Bsem(Free, false), Destroyed)
  }

  /** One instruction of thread t at p. */
  function Step(m: Memory, t: nat, p: Pc): (Memory, Pc)
    requires Runnable(m, p)
  {
    match p
    case Counting(w, at) =>
      var (c, p') := StepCount(m.counts, t, w, at);
      (m.(counts := c), p')
    case LoopTest => (m, if m.keepalive then Waiting(SemLock) else Counting(Exit, Enter))
    case Waiting(at) =>
      var (b, p') := StepWait(m.sem, t, at);
      (m.(sem := b), p')
    case InnerTest => (m, if m.keepalive then Counting(Busy, Enter) else LoopTest)
    case Pulling(at) =>
      var (q, l, p') := StepPull(m.queue, m.log, t, at);
      (m.(queue := q, log := l), p')
    case Run(job) => (m.(log := m.log.(finished := m.log.finished + multiset{job})), Counting(Done, Enter))
    case Pushing(at) =>
      var (q, l, p') := StepPush(m.queue, m.log, t, at);
      (m.(queue := q, log := l), p')
    case DestroyTest =>
      if m.counts.alive != 0 then (m, Posting(InDestroy, PostLock))
      else (m.(phase := Clearing(t)), Emptying(ClearTest))
    case Emptying(at) =>
      var (q, l, b, p') := StepClear(m.queue, m.log, m.sem, at);
      (m.(queue := q, log := l, sem := b), p')
    case Posting(c, at) =>
      var (b, p') := StepPost(m.sem, t, c, at);
      (m.(sem := b), p')
  }

  // ---- Steps of the pool ----

  predicate IsParked(p: Pc) { p == Waiting(Parked) }

  /** A signal wakes some parked threads, at least one if there is one; the broadcast of
      bsem_post_all wakes all of them. */
  predicate CanSignal(s: State, t: nat, woken: set<nat>) {
    && t < |s.threads| && s.threads[t].Posting? && s.threads[t].post.PostSignal?
    && (forall i :: i in woken ==> i < |s.threads| && IsParked(s.threads[i]))
    && (s.threads[t].caller.InDestroy? ==>
          forall i :: 0 <= i < |s.threads| && IsParked(s.threads[i]) ==> i in woken)
    && (woken == {} ==> forall i :: 0 <= i < |s.threads| ==> !IsParked(s.threads[i]))
  }

  /** The threads after thread t has signalled and those in woken have left the wait. */
  function Awaken(s: State, t: nat, woken: set<nat>): seq<Pc>
    requires CanSignal(s, t, woken)
  {
    seq(|s.threads|, i requires 0 <= i < |s.threads| =>
      if i == t then Posting(s.threads[t].caller, PostUnlock)
      else if i in woken then Waiting(Woken)
      else s.threads[i])
  }

  /** Work may be added, and the pool destroyed, only between thpool_init and
      thpool_destroy; destroying it while another call is running frees what that
      call uses, so its caller must exclude that. */
  predicate Enabled(s: State, a: Action) {
    match a
    case Go(t) => t < |s.threads| && Runnable(s.m, s.threads[t])
    case Signal(t, woken) => CanSignal(s, t, woken)
    case InitReturn => s.m.phase.Starting? && s.m.counts.alive == s.n
    case Spurious(t) => t < |s.threads| && IsParked(s.threads[t])
    case AddWork(t, _) => s.m.phase.Serving? && t < |s.threads| && s.threads[t].Idle?
    case Destroy(t) =>
      && s.m.phase.Serving? && s.n <= t < |s.threads|
      && (forall i :: s.n <= i < |s.threads| ==> s.threads[i].Idle?)
  }

  function Move(s: State, t: nat, m: Memory, p: Pc): State
    requires t < |s.threads|
  {
    State(s.n, m, s.threads[t := p])
  }

  function Next(s: State, a: Action): State
    requires Enabled(s, a)
  {
    match a
    case Go(t) =>
      var (m, p) := Step(s.m, t, s.threads[t]);
      Move(s, t, m, p)
    case Signal(t, woken) => s.(threads := Awaken(s, t, woken))
    case InitReturn => s.(m := s.m.(phase := Serving))
    case Spurious(t) => Move(s, t, s.m, Waiting(Woken))
    case AddWork(t, job) => Move(s, t, s.m, Pushing(PushLock(job)))
    case Destroy(t) => Move(s, t, s.m.(keepalive := false, phase := Stopping(t)), DestroyTest)
  }

  predicate Follows(s: State, a: Action, s': State) {
    Enabled(s, a) && s' == Next(s, a)
  }

  /** A run: each state follows from the one before by an enabled action. */
  ghost predicate IsRun(states: seq<State>, acts: seq<Action>) {
    && |states| == |acts| + 1
    && forall i :: 0 <= i < |acts| ==> Follows(states[i], acts[i], states[i + 1])
  }

  ghost predicate RunTo(states: seq<State>, acts: seq<Action>, s: State) {
    IsRun(states, acts) && Init(states[0]) && states[|acts|] == s
  }

  ghost predicate Reachable(s: State) {
    exists states, acts :: RunTo(states, acts, s)
  }
}
