/** thpool_destroy: what workers may still do once threads_keepalive is cleared, and
    what becomes of the jobs. */
module PoolShutdown {
  import opened Sums
  import opened PoolModel
  import opened PoolInvariants
  import opened PoolDraining

  /** Has passed the inner test of threads_keepalive and not yet pulled. */
  function OneCommitted(p: Pc): nat {
    if (p.Counting? && p.counter.Busy?) || p == Pulling(PullLock) || p == Pulling(PullFront) then 1 else 0
  }

  lemma StepCommitted(m: Memory, t: nat, p: Pc)
    requires Runnable(m, p) && !m.keepalive
    ensures var (m', p') := Step(m, t, p);
            !m'.keepalive && |m'.log.pulled| + OneCommitted(p') <= |m.log.pulled| + OneCommitted(p)
  {
  }

  /** Pulls made and pulls still possible. */
  function PullsDue(s: State): nat {
    |s.m.log.pulled| + Sum(OneCommitted, s.threads)
  }

  lemma NextCommitted(s: State, a: Action)
    requires Inv(s) && Enabled(s, a) && !s.m.keepalive
    ensures !Next(s, a).m.keepalive && PullsDue(Next(s, a)) <= PullsDue(s)
  {
    var s' := Next(s, a);
    match a
    case Go(t) =>
      StepCommitted(s.m, t, s.threads[t]);
      SumUpdate(OneCommitted, s.threads, t, s'.threads[t]);
    case Signal(_, _) => SumPointwise(OneCommitted, s.threads, s'.threads);
    case Spurious(t) => SumUpdate(OneCommitted, s.threads, t, Waiting(Woken));
    case _ =>
  }

  lemma {:induction false} CommittedFrom(states: seq<State>, acts: seq<Action>, k: nat)
    requires IsRun(states, acts) && Inv(states[0]) && !states[0].m.keepalive && k <= |acts|
    ensures !states[k].m.keepalive && PullsDue(states[k]) <= PullsDue(states[0])
  {
    if k > 0 {
      CommittedFrom(states, acts, k - 1);
      RunKeepsInv(states, acts, k - 1);
      assert Follows(states[k - 1], acts[k - 1], states[k - 1 + 1]);
      NextCommitted(states[k - 1], acts[k - 1]);
    }
  }

  /** After threads_keepalive is cleared, at most the workers that had already passed the
      inner test pull again, each at most once. */
  lemma PullsAfterStop(states: seq<State>, acts: seq<Action>)
    requires IsRun(states, acts) && Reachable(states[0]) && !states[0].m.keepalive
    ensures |states[|acts|].m.log.pulled| - |states[0].m.log.pulled| <= Sum(OneCommitted, states[0].threads)
  {
    ReachableInv(states[0]);
    CommittedFrom(states, acts, |acts|);
  }

  /** Reading 0 from num_threads_alive, once the pool has started, means that no worker
      holds a job: what was pulled has been finished. */
  lemma NobodyAlive(s: State)
    requires Reachable(s) && !s.m.phase.Starting? && s.n >= 1 && s.m.counts.alive == 0
    ensures !s.m.keepalive
    ensures forall i :: 0 <= i < |s.threads| ==> JobOf(s.threads[i]).None? && (i < s.n ==> Left(s.threads[i]))
    ensures s.m.log.finished == multiset(s.m.log.pulled)
  {
    ReachableInv(s);
    forall i | 0 <= i < |s.threads|
      ensures JobOf(s.threads[i]).None? && (i < s.n ==> Left(s.threads[i]))
    {
      SumMember(OneAlive, s.threads, i);
      assert Local(s.m, i, s.threads[i]);
    }
    assert Left(s.threads[0]) && Local(s.m, 0, s.threads[0]);
    NothingInHand(s);
  }

  /** Once the pool is destroyed every job pushed to it was either pulled and finished, or
      discarded by the clear loop, each as often as it was pushed; and the discarded
      jobs are the last ones pushed. */
  lemma EveryJobAccountedFor(s: State, d: nat)
    requires Reachable(s) && d < |s.threads| && s.threads[d].Destroyed?
    ensures s.m.log.pushed == s.m.log.pulled + s.m.log.discarded
    ensures multiset(s.m.log.pushed) == s.m.log.finished + multiset(s.m.log.discarded)
    ensures s.m.queue.chain == [] && s.m.queue.len == 0 && !s.m.sem.v
  {
    ReachableInv(s);
    assert Local(s.m, d, s.threads[d]);
    forall i | 0 <= i < |s.threads| ensures JobOf(s.threads[i]).None? {
      assert Local(s.m, i, s.threads[i]);
    }
    NothingInHand(s);
    assert s.m.log.pushed == s.m.log.pulled + s.m.log.discarded;
  }

  /** Jobs leave the queue in the order they were pushed, and each job pulled is in the
      hands of exactly one worker or finished, counted as often as it was pushed; a pull
      that finds no job changes nothing. */
  lemma JobsFlowInOrder(s: State)
    requires Reachable(s)
    ensures s.m.log.pushed == s.m.log.pulled + s.m.log.discarded + s.m.queue.chain
    ensures forall job :: multiset(s.m.log.pulled)[job] == s.m.log.finished[job] + Sum(Holding(job), s.threads)
    ensures forall i :: 0 <= i < |s.threads| && JobOf(s.threads[i]).Some? ==> i < s.n
  {
    ReachableInv(s);
    forall i | 0 <= i < |s.threads| && JobOf(s.threads[i]).Some? ensures i < s.n {
      assert IsWorkerPc(s.threads[i]);
    }
  }

  /** A shutdown never gets stuck half-way: it can stop only once the pool is destroyed,
      every worker has exited and the queue is empty. */
  lemma StopsOnlyDestroyed(s: State)
    requires Reachable(s) && !s.m.keepalive && Quiet(s)
    ensures exists d :: s.n <= d < |s.threads| && s.threads[d].Destroyed?
    ensures forall i :: 0 <= i < |s.threads| && i < s.n ==> s.threads[i].Exited?
    ensures s.m.queue.chain == [] && s.m.counts.alive == 0
  {
    ReachableInv(s);
    QuietMutexes(s);
    var d := s.m.phase.destroyer;
    assert Local(s.m, d, s.threads[d]);
    QuietThread(s, d);
    assert s.threads[d].Destroyed?;
    forall i | 0 <= i < |s.threads| ensures OneAlive(s.threads[i]) == 0 && (i < s.n ==> s.threads[i].Exited?) {
      assert Local(s.m, i, s.threads[i]);
      QuietThread(s, i);
    }
    SumAllZero(OneAlive, s.threads);
  }
}
