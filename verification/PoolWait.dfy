/** thpool_wait reads len and num_threads_working one after the other, without a lock. */
module PoolWait {
  import opened Sums
  import opened PoolModel
  import opened PoolInvariants
  import opened PoolDraining

  /** The jobs whose push has written both the chain and len. */
  ghost function Completed(s: State): seq<Job> {
    if |s.m.log.pushed| > 0 && exists i :: 0 <= i < |s.threads| && AddsLen(s.threads[i])
    then s.m.log.pushed[..|s.m.log.pushed| - 1]
    else s.m.log.pushed
  }

  /** Reading 0 from len means that every completed push has been pulled. */
  lemma EmptyMeansPulled(s: State)
    requires Inv(s) && s.m.keepalive && s.m.queue.len == 0
    ensures Completed(s) == s.m.log.pulled
  {
    var q := s.m.queue;
    if i :| 0 <= i < |s.threads| && AddsLen(s.threads[i]) {
      assert Local(s.m, i, s.threads[i]);
      assert |q.chain| == 1;
      assert s.m.log.pushed == s.m.log.pulled + q.chain;
    } else {
      if q.mutex.Held? {
        assert Local(s.m, q.mutex.owner, s.threads[q.mutex.owner]);
      }
      assert q.chain == [];
    }
  }

  lemma StepPulls(m: Memory, t: nat, p: Pc)
    requires Runnable(m, p)
    ensures m.log.pulled <= Step(m, t, p).0.log.pulled
  {
  }

  lemma {:induction false} PulledGrows(states: seq<State>, acts: seq<Action>, j: nat, k: nat)
    requires IsRun(states, acts) && j <= k <= |acts|
    ensures states[j].m.log.pulled <= states[k].m.log.pulled
  {
    if j < k {
      PulledGrows(states, acts, j, k - 1);
      var s, a := states[k - 1], acts[k - 1];
      assert Follows(s, a, states[k - 1 + 1]);
      if a.Go? {
        StepPulls(s.m, a.t, s.threads[a.t]);
      }
    }
  }

  lemma PrefixMultiset(a: seq<Job>, b: seq<Job>)
    requires a <= b
    ensures multiset(a) <= multiset(b)
  {
    assert b == a + b[|a|..];
  }

  /** If len was read as 0 and, any number of steps later, the number of working threads
      was read as 0, then every job whose push had completed at the first read has
      finished by the second. */
  lemma WaitSeesCompletion(states: seq<State>, acts: seq<Action>, j: nat, k: nat)
    requires IsRun(states, acts) && Reachable(states[0]) && j <= k <= |acts|
    requires states[j].m.keepalive
    requires states[j].m.queue.len == 0 && states[k].m.counts.working == 0
    ensures multiset(Completed(states[j])) <= states[k].m.log.finished
  {
    ReachableInv(states[0]);
    RunKeepsInv(states, acts, j);
    RunKeepsInv(states, acts, k);
    EmptyMeansPulled(states[j]);
    PulledGrows(states, acts, j, k);
    PrefixMultiset(states[j].m.log.pulled, states[k].m.log.pulled);
    var s := states[k];
    forall i | 0 <= i < |s.threads| ensures JobOf(s.threads[i]).None? {
      SumMember(OneWorking, s.threads, i);
    }
    NothingInHand(s);
  }
}
