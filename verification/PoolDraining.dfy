/** A pool in use runs until its work is done: every run of its own steps is finite,
    and it stops only with every job finished and every worker parked. */
module PoolDraining {
  import opened Sums
  import opened PoolModel
  import opened PoolInvariants

  /** A step of the pool itself: no new work, no shutdown, no spurious wake-up. */
  predicate IsPoolStep(a: Action) {
    a.Go? || a.Signal? || a.InitReturn?
  }

  ghost predicate Quiet(s: State) {
    forall a :: IsPoolStep(a) ==> !Enabled(s, a)
  }

  // ---- A bound on the steps still to come ----

  /** Work that a thread will hand on: a push not yet linked, a post not yet made. */
  function Weight(p: Pc): nat {
    match p
    case Pushing(PushLock(_)) => 8
    case Pushing(PushLink(_)) => 8
    case Pushing(PushLen) => 3
    case Pulling(PullLen(_, more)) => if more then 3 else 0
    case Posting(_, at) => if at.PostLock? || at.PostSet? then 3 else if at.PostSignal? then 1 else 0
    case _ => 0
  }

  /** How many instructions a thread can perform without taking or handing on work. */
  function Rank(p: Pc): nat {
    match p
    case Counting(Register, at) => if at.Enter? then 40 else if at.Write? then 39 else 38
    case Waiting(SemUnlock) => 35
    case InnerTest => 34
    case Counting(Busy, at) => if at.Enter? then 33 else if at.Write? then 32 else 31
    case Pulling(PullLock) => 30
    case Pulling(PullFront) => 29
    case Pulling(PullLen(_, _)) => 28
    case Posting(_, at) =>
      if at.PostLock? then 27 else if at.PostSet? then 26 else if at.PostSignal? then 25 else 24
    case Pulling(PullUnlock(_)) => 23
    case Run(_) => 22
    case Counting(Done, at) => if at.Enter? then 21 else if at.Write? then 20 else 19
    case LoopTest => 10
    case Waiting(SemLock) => 9
    case Waiting(Woken) => 9
    case Waiting(SemTest) => 8
    case Waiting(SemTake) => 7
    case Pushing(PushLock(_)) => 30
    case Pushing(PushLink(_)) => 29
    case Pushing(PushLen) => 28
    case Pushing(PushUnlock) => 23
    case _ => 0
  }

  function Pending(m: Memory): nat {
    4 * |m.queue.chain| + (if m.sem.v then 1 else 0) + (if m.phase.Starting? then 1 else 0)
  }

  function Potential(s: State): nat {
    Pending(s.m) + Sum(Weight, s.threads)
  }

  function Lap(s: State): nat { 40 * |s.threads| + 1 }

  function StepsLeft(s: State): nat {
    Potential(s) * Lap(s) + Sum(Rank, s.threads)
  }

  /** An instruction either consumes work or brings its thread nearer to rest. */
  lemma StepConsumes(m: Memory, t: nat, p: Pc)
    requires Runnable(m, p) && Local(m, t, p) && Shared(m) && m.keepalive
    ensures var (m', p') := Step(m, t, p);
            var before, after := Pending(m) + Weight(p), Pending(m') + Weight(p');
            m'.keepalive && (after < before || (after == before && Rank(p') < Rank(p)))
  {
  }

  lemma LexToNat(a: nat, b: nat, a': nat, b': nat, lap: nat)
    requires b' < lap
    requires a' < a || (a' == a && b' < b)
    ensures a' * lap + b' < a * lap + b
  {
    if a' < a {
      assert (a' + 1) * lap <= a * lap;
    }
  }

  lemma GoConsumes(s: State, t: nat)
    requires Inv(s) && s.m.keepalive && Enabled(s, Go(t))
    ensures var s' := Next(s, Go(t));
            && s'.m.keepalive && |s'.threads| == |s.threads|
            && (Potential(s') < Potential(s)
                || (Potential(s') == Potential(s) && Sum(Rank, s'.threads) < Sum(Rank, s.threads)))
  {
    var p := s.threads[t];
    assert Local(s.m, t, p);
    StepConsumes(s.m, t, p);
    var p' := Step(s.m, t, p).1;
    SumUpdate(Weight, s.threads, t, p');
    SumUpdate(Rank, s.threads, t, p');
  }

  lemma SignalConsumes(s: State, t: nat, woken: set<nat>)
    requires CanSignal(s, t, woken)
    ensures Potential(Next(s, Signal(t, woken))) < Potential(s)
  {
    var q := Posting(s.threads[t].caller, PostUnlock);
    SumUpdate(Weight, s.threads, t, q);
    SumPointwise(Weight, s.threads[t := q], Next(s, Signal(t, woken)).threads);
  }

  lemma PoolStepConsumes(s: State, a: Action)
    requires Inv(s) && s.m.keepalive && IsPoolStep(a) && Enabled(s, a)
    ensures Next(s, a).m.keepalive
    ensures StepsLeft(Next(s, a)) < StepsLeft(s)
  {
    var s' := Next(s, a);
    match a {
      case Go(t) => GoConsumes(s, t);
      case Signal(t, woken) => SignalConsumes(s, t, woken);
      case InitReturn =>
    }
    SumBound(Rank, s'.threads, 40);
    LexToNat(Potential(s), Sum(Rank, s.threads), Potential(s'), Sum(Rank, s'.threads), Lap(s));
  }

  /** Left to itself, a pool in use performs at most StepsLeft more steps. */
  lemma {:induction false} DrainsWithin(states: seq<State>, acts: seq<Action>)
    requires IsRun(states, acts) && Reachable(states[0]) && states[0].m.keepalive
    requires forall i :: 0 <= i < |acts| ==> IsPoolStep(acts[i])
    ensures |acts| <= StepsLeft(states[0])
  {
    ReachableInv(states[0]);
    DrainsWithinFrom(states, acts, 0);
  }

  lemma {:induction false} DrainsWithinFrom(states: seq<State>, acts: seq<Action>, k: nat)
    requires IsRun(states, acts) && k <= |acts| && Inv(states[k]) && states[k].m.keepalive
    requires forall i :: 0 <= i < |acts| ==> IsPoolStep(acts[i])
    ensures |acts| - k <= StepsLeft(states[k])
    decreases |acts| - k
  {
    if k < |acts| {
      assert Follows(states[k], acts[k], states[k + 1]);
      PoolStepConsumes(states[k], acts[k]);
      NextKeepsInv(states[k], acts[k]);
      DrainsWithinFrom(states, acts, k + 1);
    }
  }

  // ---- Where it can stop ----

  /** A thread of a quiet pool waits: for a mutex, for a signal, or for a call. */
  lemma QuietThread(s: State, t: nat)
    requires Quiet(s) && t < |s.threads|
    ensures !Runnable(s.m, s.threads[t]) && !(s.threads[t].Posting? && s.threads[t].post.PostSignal?)
  {
    assert !Enabled(s, Go(t));
    var all := set i: nat | i < |s.threads| && IsParked(s.threads[i]);
    assert forall i: nat :: i < |s.threads| && IsParked(s.threads[i]) ==> i in all;
    assert !Enabled(s, Signal(t, all));
  }

  /** So nobody is inside the semaphore's mutex or the counters', and then, since only
      those can hold up a thread inside it, nobody inside the queue's. */
  lemma QuietMutexes(s: State)
    requires Inv(s) && Quiet(s)
    ensures s.m.sem.mutex.Free? && s.m.counts.mutex.Free? && s.m.queue.mutex.Free?
  {
    forall i | 0 <= i < |s.threads| ensures !HoldsSem(s.threads[i]) && !HoldsCounts(s.threads[i]) {
      QuietThread(s, i);
    }
    HoldersInside(s);
    forall i | 0 <= i < |s.threads| ensures !HoldsQueue(s.threads[i]) {
      QuietThread(s, i);
    }
  }

  /** In a quiet pool that is in use every worker is parked and every caller idle. */
  lemma QuietThreads(s: State)
    requires Inv(s) && Quiet(s) && s.m.keepalive
    ensures forall i :: 0 <= i < |s.threads| ==> s.threads[i] == if i < s.n then Waiting(Parked) else Idle
  {
    QuietMutexes(s);
    forall i | 0 <= i < |s.threads| ensures s.threads[i] == if i < s.n then Waiting(Parked) else Idle {
      assert Local(s.m, i, s.threads[i]);
      QuietThread(s, i);
    }
  }

  lemma CountsToMultiset(a: multiset<Job>, b: multiset<Job>)
    requires forall job :: a[job] == b[job]
    ensures a == b
  {
  }

  /** When nothing holds a job, everything pulled has been finished. */
  lemma NothingInHand(s: State)
    requires Counts(s)
    requires forall i :: 0 <= i < |s.threads| ==> JobOf(s.threads[i]).None?
    ensures s.m.log.finished == multiset(s.m.log.pulled)
  {
    forall job ensures multiset(s.m.log.pulled)[job] == s.m.log.finished[job] {
      SumAllZero(Holding(job), s.threads);
    }
    CountsToMultiset(multiset(s.m.log.pulled), s.m.log.finished);
  }

  /** A pool with a worker, in use, that can make no step of its own has finished
      exactly the jobs pushed to it, and its workers wait. */
  lemma StopsOnlyDrained(s: State)
    requires Reachable(s) && s.m.keepalive && s.n >= 1 && Quiet(s)
    ensures s.m.queue.chain == [] && s.m.queue.len == 0
    ensures s.m.counts.working == 0 && s.m.counts.alive == s.n
    ensures s.m.log.finished == multiset(s.m.log.pushed)
    ensures forall i :: 0 <= i < |s.threads| ==> s.threads[i] == if i < s.n then Waiting(Parked) else Idle
    ensures s.m.phase.Serving?
  {
    ReachableInv(s);
    QuietMutexes(s);
    QuietThreads(s);
    assert s.m.queue.chain == [] by {
      assert IsParked(s.threads[0]);
      assert !s.m.sem.v;
    }
    assert s.m.counts.working == 0 by {
      SumAllZero(OneWorking, s.threads);
    }
    assert s.m.counts.alive == s.n by {
      SumOfFirst(OneAlive, s.threads, s.n);
    }
    assert !Enabled(s, InitReturn);
    NothingInHand(s);
    assert s.m.log.pushed == s.m.log.pulled;
  }

  /** Queued work is always announced: the semaphore's bit is set, or a thread that holds
      the queue's mutex is about to set it, or a worker has taken it and will pull. And
      the bit is never left set behind parked workers that nobody will wake. */
  lemma NoStrandedWork(s: State)
    requires Reachable(s) && s.m.keepalive
    ensures s.m.queue.chain != [] ==>
              || s.m.sem.v
              || (exists i :: 0 <= i < |s.threads| && WillPost(s.threads[i]) && s.m.queue.mutex == Held(i))
              || (exists i :: 0 <= i < |s.threads| && i < s.n && HasToken(s.threads[i]))
    ensures s.m.sem.v && (exists i :: 0 <= i < |s.threads| && IsParked(s.threads[i])) ==>
              exists i :: 0 <= i < |s.threads| && WillRecheck(s.threads[i])
  {
    ReachableInv(s);
    if s.m.queue.chain != [] && !s.m.sem.v {
      if Any(WillPost, s.threads) {
        var i :| 0 <= i < |s.threads| && WillPost(s.threads[i]);
        assert Local(s.m, i, s.threads[i]);
      } else {
        var i :| 0 <= i < |s.threads| && HasToken(s.threads[i]);
        assert IsWorkerPc(s.threads[i]);
      }
    }
  }
}
