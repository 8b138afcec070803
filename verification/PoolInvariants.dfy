/** What every step of the pool keeps, and so what holds in every reachable state.

    The facts about one thread are stated for its program counter alone (Local).
    A step must keep them for the thread that performs it and must not disturb
    them for any other thread; both are checked without mentioning the other
    threads of the pool, and then put together. */
module PoolInvariants {
  import opened Sums
  import opened PoolModel

  // ---- Facts about one thread ----

  predicate HoldsCounts(p: Pc) { p.Counting? && !p.count.Enter? }

  predicate HoldsSem(p: Pc) {
    || (p.Waiting? && (p.sem.SemTest? || p.sem.SemTake? || p.sem.SemUnlock?))
    || (p.Posting? && !p.post.PostLock?)
  }

  predicate HoldsQueue(p: Pc) {
    || (p.Pulling? && !p.pull.PullLock?)
    || (p.Pushing? && !p.push.PushLock?)
    || (p.Posting? && (p.caller.InPush? || p.caller.InPull?))
  }

  /** A mutex is held by exactly the thread whose program counter is inside it, and the
      bit a thread has seen stays set until it takes it. */
  predicate Locks(m: Memory, i: nat, p: Pc) {
    && (HoldsCounts(p) <==> m.counts.mutex == Held(i))
    && (HoldsSem(p) <==> m.sem.mutex == Held(i))
    && (HoldsQueue(p) <==> m.queue.mutex == Held(i))
    && (p == Waiting(SemTake) ==> m.sem.v)
    && (p.Destroyed? ==> !m.sem.v)
  }

  predicate IsPush(p: Pc) { p.Pushing? || (p.Posting? && p.caller.InPush?) }
  predicate IsClear(p: Pc) { p.Emptying? || p.Destroyed? || (p.Posting? && p.caller.InClear?) }
  predicate IsDestroy(p: Pc) { p.DestroyTest? || (p.Posting? && p.caller.InDestroy?) || IsClear(p) }
  predicate Registering(p: Pc) { p == Counting(Register, Enter) || p == Counting(Register, Write) }
  predicate Leaving(p: Pc) { p.Exited? || (p.Counting? && p.counter.Exit?) }
  predicate Left(p: Pc) { p.Exited? || p == Counting(Exit, Leave) }

  /** What a thread may be doing in each phase of the pool's life. */
  predicate InPhase(m: Memory, i: nat, p: Pc) {
    && (m.phase.Starting? ==> IsWorkerPc(p) || p.Idle?)
    && (Registering(p) ==> m.phase.Starting?)
    && (m.keepalive ==> !Leaving(p))
    && (IsPush(p) ==> m.keepalive)
    && (IsDestroy(p) <==> (m.phase.Stopping? || m.phase.Clearing?) && m.phase.destroyer == i)
    && (IsClear(p) <==> m.phase == Clearing(i))
    && (m.phase.Clearing? && IsWorkerPc(p) ==> Left(p))
  }

  predicate AddsLen(p: Pc) { p == Pushing(PushLen) }
  predicate DropsLen(p: Pc) { (p.Pulling? && p.pull.PullLen?) || (p.Emptying? && p.clear.ClearLen?) }
  predicate More(p: Pc)
    requires DropsLen(p)
  { if p.Pulling? then p.pull.more else p.clear.more }

  /** len is the length of the chain, except between the two writes of a push or a pull. */
  predicate Lengths(q: JobQueue, p: Pc) {
    && (AddsLen(p) ==> q.len == |q.chain| - 1)
    && (DropsLen(p) ==> q.len == |q.chain| + 1 && (More(p) <==> q.chain != []))
    && ((HoldsQueue(p) || IsClear(p)) && !AddsLen(p) && !DropsLen(p) ==> q.len == |q.chain|)
    && (p == Emptying(ClearFront) ==> q.chain != [])
    && (p == Emptying(ClearReset) || p.Destroyed? ==> q.chain == [])
  }

  predicate Local(m: Memory, i: nat, p: Pc) {
    Locks(m, i, p) && InPhase(m, i, p) && Lengths(m.queue, p)
  }

  /** Facts about the shared memory alone. */
  predicate Shared(m: Memory) {
    && (m.keepalive <==> m.phase.Starting? || m.phase.Serving?)
    && (m.queue.mutex.Free? && !m.phase.Clearing? ==> m.queue.len == |m.queue.chain|)
    && m.log.pushed == m.log.pulled + m.log.discarded + m.queue.chain
    && (m.log.discarded != [] ==> m.phase.Clearing?)
  }

  function OneWorker(p: Pc): nat { if IsWorkerPc(p) then 1 else 0 }

  function OneAlive(p: Pc): nat {
    if IsWorkerPc(p) && !Left(p) && !Registering(p) then 1 else 0
  }

  function OneWorking(p: Pc): nat {
    match p
    case Counting(Busy, Leave) => 1
    case Counting(Done, at) => if at.Leave? then 0 else 1
    case Pulling(_) => 1
    case Run(_) => 1
    case Posting(c, _) => if c.InPull? then 1 else 0
    case _ => 0
  }

  /** The job a thread has pulled and not yet finished. */
  function JobOf(p: Pc): Option<Job> {
    match p
    case Pulling(PullLen(job, _)) => Some(job)
    case Pulling(PullUnlock(got)) => got
    case Posting(InPull(job), _) => Some(job)
    case Run(job) => Some(job)
    case _ => None
  }

  function Holding(job: Job): Pc -> nat {
    (p: Pc) => if JobOf(p) == Some(job) then 1 else 0
  }

  /** Has taken the semaphore's bit and not yet pulled. */
  predicate HasToken(p: Pc) {
    || p == Waiting(SemUnlock) || p.InnerTest? || (p.Counting? && p.counter.Busy?)
    || p == Pulling(PullLock) || p == Pulling(PullFront)
  }

  /** Holds the queue's mutex and is about to set the semaphore's bit. */
  predicate WillPost(p: Pc) {
    || AddsLen(p) || (p.Pulling? && DropsLen(p) && More(p))
    || (p.Posting? && (p.post.PostLock? || p.post.PostSet?) && (p.caller.InPush? || p.caller.InPull?))
  }

  /** Will look at the semaphore's bit, or is about to wake a thread that will. */
  predicate WillRecheck(p: Pc) {
    || (p.Waiting? && (p.sem.Woken? || p.sem.SemTest? || p.sem.SemTake?))
    || (p.Posting? && p.post.PostSignal?)
  }

  // ---- One instruction, seen from its own thread and from another ----

  lemma StepKeepsOwnLocks(m: Memory, t: nat, p: Pc)
    requires Runnable(m, p) && Locks(m, t, p)
    ensures Locks(Step(m, t, p).0, t, Step(m, t, p).1)
  {
  }

  lemma StepKeepsOwnPhase(m: Memory, t: nat, p: Pc)
    requires Runnable(m, p) && InPhase(m, t, p) && Shared(m)
    ensures InPhase(Step(m, t, p).0, t, Step(m, t, p).1)
    ensures IsWorkerPc(p) <==> IsWorkerPc(Step(m, t, p).1)
  {
  }

  lemma StepKeepsOwnLengths(m: Memory, t: nat, p: Pc)
    requires Runnable(m, p) && Local(m, t, p) && Shared(m)
    requires p.DestroyTest? && m.counts.alive == 0 ==> m.queue.mutex.Free?
    ensures Lengths(Step(m, t, p).0.queue, Step(m, t, p).1)
  {
  }

  lemma StepKeepsShared(m: Memory, t: nat, p: Pc)
    requires Runnable(m, p) && Local(m, t, p) && Shared(m)
    ensures Shared(Step(m, t, p).0)
  {
  }

  lemma StepKeepsOther(m: Memory, t: nat, p: Pc, i: nat, q: Pc)
    requires Runnable(m, p) && Local(m, t, p) && Shared(m)
    requires i != t && Local(m, i, q) && OneAlive(q) <= m.counts.alive
    ensures Local(Step(m, t, p).0, i, q)
  {
  }

  lemma StepCounts(m: Memory, t: nat, p: Pc)
    requires Runnable(m, p) && Local(m, t, p)
    ensures var (m', p') := Step(m, t, p);
            && OneWorker(p') == OneWorker(p)
            && m'.counts.alive - m.counts.alive == OneAlive(p') - OneAlive(p)
            && m'.counts.working - m.counts.working == OneWorking(p') - OneWorking(p)
  {
  }

  lemma StepKeepsJobs(m: Memory, t: nat, p: Pc)
    requires Runnable(m, p) && p != Pulling(PullFront) && !p.Run?
    ensures var (m', p') := Step(m, t, p);
            m'.log.pulled == m.log.pulled && m'.log.finished == m.log.finished && JobOf(p') == JobOf(p)
  {
  }

  lemma StepJobs(m: Memory, t: nat, p: Pc, job: Job)
    requires Runnable(m, p)
    ensures var (m', p') := Step(m, t, p);
            multiset(m'.log.pulled)[job] + m.log.finished[job] + Holding(job)(p)
              == multiset(m.log.pulled)[job] + m'.log.finished[job] + Holding(job)(p')
  {
    if p != Pulling(PullFront) && !p.Run? {
      StepKeepsJobs(m, t, p);
    }
  }

  // ---- Facts about the whole pool ----

  ghost predicate Threads(s: State) {
    && s.n <= |s.threads|
    && (forall i :: 0 <= i < |s.threads| ==> (i < s.n <==> IsWorkerPc(s.threads[i])))
    && (forall i :: 0 <= i < |s.threads| ==> Local(s.m, i, s.threads[i]))
  }

  /** A mutex that is held is held by a thread of the pool, so by one inside it. */
  ghost predicate Owned(x: Mutex, ts: seq<Pc>) {
    x.Held? ==> x.owner < |ts|
  }

  ghost predicate Owners(s: State) {
    && Owned(s.m.counts.mutex, s.threads)
    && Owned(s.m.sem.mutex, s.threads)
    && Owned(s.m.queue.mutex, s.threads)
    && (s.m.phase.Stopping? || s.m.phase.Clearing? ==> s.m.phase.destroyer < |s.threads|)
  }

  /** Each counter is the number of threads between its increment and its decrement, and
      a job has been pulled as often as it was finished or is in a thread's hands. */
  ghost predicate Counts(s: State) {
    && s.n == Sum(OneWorker, s.threads)
    && s.m.counts.alive == Sum(OneAlive, s.threads)
    && s.m.counts.working == Sum(OneWorking, s.threads)
    && (forall job :: multiset(s.m.log.pulled)[job] == s.m.log.finished[job] + Sum(Holding(job), s.threads))
  }

  ghost predicate Any(f: Pc -> bool, ts: seq<Pc>) {
    exists i :: 0 <= i < |ts| && f(ts[i])
  }

  /** Queued work is announced: by the bit, by a thread about to set it, or by a
      worker that has taken it and will pull. */
  ghost predicate WorkKept(s: State) {
    s.m.keepalive && s.m.queue.chain != [] ==>
      s.m.sem.v || Any(WillPost, s.threads) || Any(HasToken, s.threads)
  }

  /** The bit is not left set behind parked threads only. */
  ghost predicate BitKept(s: State) {
    s.m.sem.v && Any(IsParked, s.threads) ==> Any(WillRecheck, s.threads)
  }

  ghost predicate Inv(s: State) {
    Threads(s) && Owners(s) && Shared(s.m) && Counts(s) && WorkKept(s) && BitKept(s)
  }

  // ---- An instruction keeps the invariant ----

  lemma HoldersInside(s: State)
    requires Threads(s) && Owners(s)
    ensures s.m.counts.mutex.Held? ==> HoldsCounts(s.threads[s.m.counts.mutex.owner])
    ensures s.m.sem.mutex.Held? ==> HoldsSem(s.threads[s.m.sem.mutex.owner])
    ensures s.m.queue.mutex.Held? ==> HoldsQueue(s.threads[s.m.queue.mutex.owner])
  {
  }

  /** A thread that finds no worker alive finds the queue's mutex free: after the shutdown
      has begun only a worker that is alive could hold it. */
  lemma NobodyAliveNobodyInQueue(s: State, t: nat)
    requires Inv(s) && t < |s.threads| && s.threads[t].DestroyTest? && s.m.counts.alive == 0
    ensures s.m.queue.mutex.Free?
  {
    assert Local(s.m, t, s.threads[t]);
    forall i | 0 <= i < |s.threads| ensures !HoldsQueue(s.threads[i]) {
      SumMember(OneAlive, s.threads, i);
      assert Local(s.m, i, s.threads[i]);
    }
    HoldersInside(s);
  }

  lemma StepKeepsOwn(m: Memory, t: nat, p: Pc)
    requires Runnable(m, p) && Local(m, t, p) && Shared(m)
    requires p.DestroyTest? && m.counts.alive == 0 ==> m.queue.mutex.Free?
    ensures var (m', p') := Step(m, t, p);
            Local(m', t, p') && Shared(m') && (IsWorkerPc(p) <==> IsWorkerPc(p'))
  {
    StepKeepsOwnLocks(m, t, p);
    StepKeepsOwnPhase(m, t, p);
    StepKeepsOwnLengths(m, t, p);
    StepKeepsShared(m, t, p);
  }

  lemma GoKeepsThreads(s: State, t: nat)
    requires Inv(s) && Enabled(s, Go(t))
    ensures Threads(Next(s, Go(t))) && Shared(Next(s, Go(t)).m)
  {
    var p := s.threads[t];
    if p.DestroyTest? && s.m.counts.alive == 0 {
      NobodyAliveNobodyInQueue(s, t);
    }
    assert Local(s.m, t, p);
    StepKeepsOwn(s.m, t, p);
    forall i | 0 <= i < |s.threads| && i != t ensures Local(Step(s.m, t, p).0, i, s.threads[i]) {
      SumMember(OneAlive, s.threads, i);
      StepKeepsOther(s.m, t, p, i, s.threads[i]);
    }
  }

  lemma GoKeepsCounts(s: State, t: nat)
    requires Threads(s) && Counts(s) && Enabled(s, Go(t))
    ensures Counts(Next(s, Go(t)))
  {
    var p := s.threads[t];
    var (m', p') := Step(s.m, t, p);
    assert Local(s.m, t, p);
    StepCounts(s.m, t, p);
    SumUpdate(OneWorker, s.threads, t, p');
    SumUpdate(OneAlive, s.threads, t, p');
    SumUpdate(OneWorking, s.threads, t, p');
    forall job
      ensures multiset(m'.log.pulled)[job] == m'.log.finished[job] + Sum(Holding(job), s.threads[t := p'])
    {
      StepJobs(s.m, t, p, job);
      SumUpdate(Holding(job), s.threads, t, p');
    }
  }

  /** If an instruction leaves work that neither the bit nor its own thread announces,
      it was announced before by neither. */
  lemma StepAnnounces(m: Memory, t: nat, p: Pc)
    requires Runnable(m, p) && Local(m, t, p) && Shared(m)
    ensures var (m', p') := Step(m, t, p);
            m'.keepalive && m'.queue.chain != [] && !m'.sem.v && !WillPost(p') && !HasToken(p') ==>
              m.keepalive && m.queue.chain != [] && !m.sem.v && !WillPost(p) && !HasToken(p)
  {
  }

  lemma StepRechecks(m: Memory, t: nat, p: Pc)
    requires Runnable(m, p) && Local(m, t, p)
    ensures var (m', p') := Step(m, t, p);
            m'.sem.v && !WillRecheck(p') ==> m.sem.v && !WillRecheck(p) && !IsParked(p')
  {
  }

  lemma AnyElsewhere(f: Pc -> bool, ts: seq<Pc>, t: nat, p: Pc)
    requires t < |ts| && Any(f, ts) && !f(ts[t])
    ensures Any(f, ts[t := p])
  {
    var i :| 0 <= i < |ts| && f(ts[i]);
    assert ts[t := p][i] == ts[i];
  }

  lemma GoKeepsBits(s: State, t: nat)
    requires Inv(s) && Enabled(s, Go(t))
    ensures WorkKept(Next(s, Go(t))) && BitKept(Next(s, Go(t)))
  {
    var p := s.threads[t];
    var (m', p') := Step(s.m, t, p);
    var us := s.threads[t := p'];
    assert us[t] == p';
    assert Local(s.m, t, p);
    StepAnnounces(s.m, t, p);
    StepRechecks(s.m, t, p);
    if m'.keepalive && m'.queue.chain != [] && !m'.sem.v && !WillPost(p') && !HasToken(p') {
      if Any(WillPost, s.threads) {
        AnyElsewhere(WillPost, s.threads, t, p');
      } else {
        AnyElsewhere(HasToken, s.threads, t, p');
      }
    }
    if m'.sem.v && !WillRecheck(p') && Any(IsParked, us) {
      var i :| 0 <= i < |us| && IsParked(us[i]);
      assert s.threads[i] == us[i];
      AnyElsewhere(WillRecheck, s.threads, t, p');
    }
  }

  lemma StepKeepsOwners(m: Memory, t: nat, p: Pc)
    requires Runnable(m, p)
    ensures var m' := Step(m, t, p).0;
            && (m'.counts.mutex == Held(t) || m'.counts.mutex == m.counts.mutex || m'.counts.mutex.Free?)
            && (m'.sem.mutex == Held(t) || m'.sem.mutex == m.sem.mutex || m'.sem.mutex.Free?)
            && (m'.queue.mutex == Held(t) || m'.queue.mutex == m.queue.mutex || m'.queue.mutex.Free?)
            && (m'.phase == m.phase || m'.phase == Clearing(t))
  {
  }

  lemma GoKeepsInv(s: State, t: nat)
    requires Inv(s) && Enabled(s, Go(t))
    ensures Inv(Next(s, Go(t)))
  {
    GoKeepsThreads(s, t);
    GoKeepsCounts(s, t);
    GoKeepsBits(s, t);
    StepKeepsOwners(s.m, t, s.threads[t]);
  }

  // ---- The other actions keep it ----

  /** The measures that a move between these two program counters leaves alone. */
  predicate SameMeasures(p: Pc, q: Pc) {
    && OneWorker(p) == OneWorker(q) && OneAlive(p) == OneAlive(q) && OneWorking(p) == OneWorking(q)
    && JobOf(p) == JobOf(q)
  }

  lemma SameMeasuresKeepCounts(s: State, s': State)
    requires Counts(s) && s'.n == s.n && |s'.threads| == |s.threads|
    requires s'.m.counts == s.m.counts && s'.m.log == s.m.log
    requires forall i :: 0 <= i < |s.threads| ==> SameMeasures(s.threads[i], s'.threads[i])
    ensures Counts(s')
  {
    SumPointwise(OneWorker, s.threads, s'.threads);
    SumPointwise(OneAlive, s.threads, s'.threads);
    SumPointwise(OneWorking, s.threads, s'.threads);
    forall job ensures multiset(s'.m.log.pulled)[job] == s'.m.log.finished[job] + Sum(Holding(job), s'.threads) {
      SumPointwise(Holding(job), s.threads, s'.threads);
    }
  }

  /** Threads that are woken, or that enter the pool, hold nothing and announce nothing. */
  predicate SmallMove(p: Pc, q: Pc) {
    || p == q
    || (IsParked(p) && q == Waiting(Woken))
    || (p.Posting? && p.post.PostSignal? && q == Posting(p.caller, PostUnlock))
    || (p.Idle? && q.Pushing? && q.push.PushLock?)
  }

  lemma SmallMoveKeepsLocal(m: Memory, i: nat, p: Pc, q: Pc)
    requires SmallMove(p, q) && Local(m, i, p) && Shared(m)
    requires p.Idle? && !q.Idle? ==> m.phase.Serving?
    ensures Local(m, i, q) && SameMeasures(p, q)
    ensures IsWorkerPc(p) <==> IsWorkerPc(q)
    ensures WillPost(p) ==> WillPost(q)
    ensures HasToken(p) ==> HasToken(q)
    ensures WillRecheck(p) && !p.Posting? ==> WillRecheck(q)
    ensures IsParked(q) ==> IsParked(p)
  {
  }

  lemma SmallMovesKeepInv(s: State, s': State)
    requires Inv(s) && s'.n == s.n && s'.m == s.m && |s'.threads| == |s.threads|
    requires forall i :: 0 <= i < |s.threads| ==> SmallMove(s.threads[i], s'.threads[i])
    requires (exists i :: 0 <= i < |s.threads| && s.threads[i].Idle? && !s'.threads[i].Idle?) ==> s.m.phase.Serving?
    requires BitKept(s')
    ensures Inv(s')
  {
    forall i | 0 <= i < |s.threads|
      ensures Local(s'.m, i, s'.threads[i]) && SameMeasures(s.threads[i], s'.threads[i])
      ensures IsWorkerPc(s.threads[i]) <==> IsWorkerPc(s'.threads[i])
      ensures WillPost(s.threads[i]) ==> WillPost(s'.threads[i])
      ensures HasToken(s.threads[i]) ==> HasToken(s'.threads[i])
    {
      SmallMoveKeepsLocal(s.m, i, s.threads[i], s'.threads[i]);
    }
    SameMeasuresKeepCounts(s, s');
    if Any(WillPost, s.threads) {
      var i :| 0 <= i < |s.threads| && WillPost(s.threads[i]);
      assert WillPost(s'.threads[i]);
    }
    if Any(HasToken, s.threads) {
      var i :| 0 <= i < |s.threads| && HasToken(s.threads[i]);
      assert HasToken(s'.threads[i]);
    }
  }

  lemma SignalKeepsInv(s: State, t: nat, woken: set<nat>)
    requires Inv(s) && CanSignal(s, t, woken)
    ensures Inv(Next(s, Signal(t, woken)))
  {
    var s' := Next(s, Signal(t, woken));
    assert BitKept(s') by {
      if Any(IsParked, s'.threads) {
        var i :| 0 <= i < |s'.threads| && IsParked(s'.threads[i]);
        assert IsParked(s.threads[i]);
        var j :| j in woken;
        assert WillRecheck(s'.threads[j]);
      }
    }
    SmallMovesKeepInv(s, s');
  }

  /** One thread that was parked, or idle in a pool that is in use, moves on. */
  lemma EntryKeepsInv(s: State, t: nat, q: Pc)
    requires Inv(s) && t < |s.threads|
    requires || (IsParked(s.threads[t]) && q == Waiting(Woken))
             || (s.threads[t].Idle? && q.Pushing? && q.push.PushLock? && s.m.phase.Serving?)
    ensures Inv(Move(s, t, s.m, q))
  {
    var s' := Move(s, t, s.m, q);
    assert BitKept(s') by {
      if s.m.sem.v && Any(IsParked, s'.threads) {
        var i :| 0 <= i < |s'.threads| && IsParked(s'.threads[i]);
        assert IsParked(s.threads[i]);
        if !WillRecheck(q) {
          AnyElsewhere(WillRecheck, s.threads, t, q);
        } else {
          assert WillRecheck(s'.threads[t]);
        }
      }
    }
    SmallMovesKeepInv(s, s');
  }

  lemma InitReturnKeepsInv(s: State)
    requires Inv(s) && Enabled(s, InitReturn)
    ensures Inv(Next(s, InitReturn))
  {
    SumTight(OneAlive, OneWorker, s.threads);
    assert forall i :: 0 <= i < |s.threads| ==> OneAlive(s.threads[i]) == OneWorker(s.threads[i]);
    var s' := Next(s, InitReturn);
    assert Counts(s');
    forall i | 0 <= i < |s.threads| ensures Local(s'.m, i, s'.threads[i]) {
      assert Local(s.m, i, s.threads[i]);
    }
  }

  lemma DestroyKeepsInv(s: State, t: nat)
    requires Inv(s) && Enabled(s, Destroy(t))
    ensures Inv(Next(s, Destroy(t)))
  {
    var s' := Next(s, Destroy(t));
    forall i | 0 <= i < |s.threads|
      ensures Local(s'.m, i, s'.threads[i]) && SameMeasures(s.threads[i], s'.threads[i])
    {
      assert Local(s.m, i, s.threads[i]);
    }
    SameMeasuresKeepCounts(s, s');
    if s.m.sem.v && Any(IsParked, s'.threads) {
      var i :| 0 <= i < |s'.threads| && IsParked(s'.threads[i]);
      assert IsParked(s.threads[i]);
      AnyElsewhere(WillRecheck, s.threads, t, DestroyTest);
    }
  }

  lemma NextKeepsInv(s: State, a: Action)
    requires Inv(s) && Enabled(s, a)
    ensures Inv(Next(s, a))
  {
    match a
    case Go(t) => GoKeepsInv(s, t);
    case Signal(t, woken) => SignalKeepsInv(s, t, woken);
    case InitReturn => InitReturnKeepsInv(s);
    case Spurious(t) => EntryKeepsInv(s, t, Waiting(Woken));
    case AddWork(t, job) => EntryKeepsInv(s, t, Pushing(PushLock(job)));
    case Destroy(t) => DestroyKeepsInv(s, t);
  }

  // ---- Every run ----

  lemma {:induction false} SumOfFirst(f: Pc -> nat, ts: seq<Pc>, n: nat)
    requires n <= |ts|
    requires forall i :: 0 <= i < |ts| ==> f(ts[i]) == if i < n then 1 else 0
    ensures Sum(f, ts) == n
  {
    if ts != [] {
      assert f(ts[0]) == if 0 < n then 1 else 0;
      forall i | 0 <= i < |ts[1..]| ensures f(ts[1..][i]) == if i < n - 1 then 1 else 0 {
        assert ts[1..][i] == ts[i + 1];
      }
      SumOfFirst(f, ts[1..], if n == 0 then 0 else n - 1);
    }
  }

  lemma InitInv(s: State)
    requires Init(s)
    ensures Inv(s)
  {
    SumOfFirst(OneWorker, s.threads, s.n);
    SumAllZero(OneAlive, s.threads);
    SumAllZero(OneWorking, s.threads);
    forall job ensures multiset(s.m.log.pulled)[job] == s.m.log.finished[job] + Sum(Holding(job), s.threads) {
      SumAllZero(Holding(job), s.threads);
    }
  }

  lemma {:induction false} RunKeepsInv(states: seq<State>, acts: seq<Action>, k: nat)
    requires IsRun(states, acts) && Inv(states[0]) && k <= |acts|
    ensures Inv(states[k])
  {
    if k > 0 {
      RunKeepsInv(states, acts, k - 1);
      assert Follows(states[k - 1], acts[k - 1], states[k - 1 + 1]);
      NextKeepsInv(states[k - 1], acts[k - 1]);
    }
  }

  lemma ReachableInv(s: State)
    requires Reachable(s)
    ensures Inv(s)
  {
    var states, acts :| RunTo(states, acts, s);
    InitInv(states[0]);
    RunKeepsInv(states, acts, |acts|);
  }
}
