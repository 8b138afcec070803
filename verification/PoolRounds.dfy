/** The rounds of thpool_destroy: it tests num_threads_alive, broadcasts and sleeps. A
    broadcast after which the workers come to rest has sent at least one of them home. */
module PoolRounds {
  import opened Sums
  import opened PoolModel
  import opened PoolInvariants
  import opened PoolDraining

  /** No worker can perform an instruction. */
  ghost predicate AtRest(s: State) {
    forall i :: 0 <= i < |s.threads| && i < s.n ==>
      !Runnable(s.m, s.threads[i]) && !(s.threads[i].Posting? && s.threads[i].post.PostSignal?)
  }

  /** A signal wakes a parked thread if there is one, a broadcast all of them; no other thread
      but the sender is touched. */
  lemma SignalEffect(s: State, t: nat, woken: set<nat>)
    requires Enabled(s, Signal(t, woken))
    ensures var ts, ts' := s.threads, Next(s, Signal(t, woken)).threads;
            && |ts'| == |ts| && Next(s, Signal(t, woken)).m == s.m
            && ts'[t] == Posting(ts[t].caller, PostUnlock)
            && (forall i :: 0 <= i < |ts| && i != t ==>
                  ts'[i] == ts[i] || (IsParked(ts[i]) && ts'[i] == Waiting(Woken)))
            && (Any(IsParked, ts) ==> exists i :: 0 <= i < |ts| && IsParked(ts[i]) && ts'[i] == Waiting(Woken))
            && (ts[t].caller.InDestroy? ==> !Any(IsParked, ts'))
  {
    var ts, ts' := s.threads, Next(s, Signal(t, woken)).threads;
    if Any(IsParked, ts) {
      var i :| i in woken;
      assert ts'[i] == Waiting(Woken);
    }
  }

  // ---- Where the workers rest ----

  /** May still park: has not taken the semaphore's bit. */
  function OneWaits(p: Pc): nat { if p.Waiting? && !p.sem.SemUnlock? then 1 else 0 }

  predicate Testing(s: State) {
    s.m.phase.Stopping? && s.m.phase.destroyer < |s.threads| && s.threads[s.m.phase.destroyer].DestroyTest?
  }

  ghost predicate ParkedOrGone(s: State) {
    forall i :: 0 <= i < |s.threads| && i < s.n ==> s.threads[i].Exited? || IsParked(s.threads[i])
  }

  /** When thpool_destroy is at its test, workers at rest are parked or gone, and what
      num_threads_alive counts are the parked ones; and the bit is not set behind them. */
  lemma RestIsParked(s: State)
    requires Inv(s) && Testing(s) && AtRest(s)
    ensures ParkedOrGone(s) && s.m.counts.alive == Sum(OneWaits, s.threads)
    ensures s.m.sem.v ==> s.m.counts.alive == 0
  {
    MutexesFree(s);
    forall i | 0 <= i < |s.threads|
      ensures i < s.n ==> s.threads[i].Exited? || IsParked(s.threads[i])
      ensures OneAlive(s.threads[i]) == OneWaits(s.threads[i]) && !WillRecheck(s.threads[i])
    {
      assert Local(s.m, i, s.threads[i]);
    }
    SumMeasures(OneAlive, OneWaits, s.threads);
    if s.m.sem.v {
      assert !Any(IsParked, s.threads);
      SumAllZero(OneWaits, s.threads);
    }
  }

  lemma MutexesFree(s: State)
    requires Inv(s) && Testing(s) && AtRest(s)
    ensures s.m.sem.mutex.Free? && s.m.counts.mutex.Free? && s.m.queue.mutex.Free?
  {
    forall i | 0 <= i < |s.threads|
      ensures !HoldsSem(s.threads[i]) && !HoldsCounts(s.threads[i])
    {
      assert Local(s.m, i, s.threads[i]);
    }
    HoldersInside(s);
    forall i | 0 <= i < |s.threads| ensures !HoldsQueue(s.threads[i]) {
      assert Local(s.m, i, s.threads[i]);
    }
  }

  // ---- A round lowers the number of workers ----

  lemma StepWaits(m: Memory, t: nat, p: Pc)
    requires Runnable(m, p) && Local(m, t, p) && !m.keepalive && !m.phase.Clearing?
    ensures var (m', p') := Step(m, t, p);
            && OneWaits(p') <= OneWaits(p)
            && (m.sem.v ==> m'.sem.v || OneWaits(p') < OneWaits(p))
            && (p == Posting(InDestroy, PostSet) ==> m'.sem.v)
  {
  }

  /** Between its test and its broadcast. */
  predicate AboutToSet(p: Pc) {
    p == Posting(InDestroy, PostLock) || p == Posting(InDestroy, PostSet)
  }

  /** Of w workers that might park at a test, one has taken the bit since the broadcast that
      followed it, or the bit is still there to be taken. */
  ghost predicate OneGoes(s: State, w: nat) {
    s.m.phase.Clearing? ||
    (s.m.phase.Stopping? && s.m.phase.destroyer < |s.threads| && Sum(OneWaits, s.threads) <= w
     && (AboutToSet(s.threads[s.m.phase.destroyer]) || s.m.sem.v || Sum(OneWaits, s.threads) < w))
  }

  lemma GoKeepsOneGoes(s: State, t: nat, w: nat)
    requires Inv(s) && Enabled(s, Go(t)) && !s.m.phase.Clearing? && OneGoes(s, w)
    ensures OneGoes(Next(s, Go(t)), w)
  {
    var p, d := s.threads[t], s.m.phase.destroyer;
    assert Local(s.m, t, p) && Local(s.m, d, s.threads[d]);
    StepWaits(s.m, t, p);
    SumUpdate(OneWaits, s.threads, t, Step(s.m, t, p).1);
    PhaseStays(s.m, t, p);
  }

  lemma PhaseStays(m: Memory, t: nat, p: Pc)
    requires Runnable(m, p) && Local(m, t, p)
    ensures Step(m, t, p).0.phase == if p.DestroyTest? && m.counts.alive == 0 then Clearing(t) else m.phase
    ensures AboutToSet(p) ==> AboutToSet(Step(m, t, p).1) || Step(m, t, p).0.sem.v
  {
  }

  lemma NextKeepsOneGoes(s: State, a: Action, w: nat)
    requires Inv(s) && Enabled(s, a) && OneGoes(s, w)
    ensures OneGoes(Next(s, a), w)
  {
    match a
    case Go(t) =>
      assert Local(s.m, t, s.threads[t]);
      PhaseStays(s.m, t, s.threads[t]);
      if !s.m.phase.Clearing? {
        GoKeepsOneGoes(s, t, w);
      }
    case Signal(t, _) => SumPointwise(OneWaits, s.threads, Next(s, a).threads);
    case Spurious(t) => SumUpdate(OneWaits, s.threads, t, Waiting(Woken));
    case _ =>
  }

  lemma RunStepKeepsOneGoes(states: seq<State>, acts: seq<Action>, k: nat, w: nat)
    requires IsRun(states, acts) && Reachable(states[0]) && k < |acts| && OneGoes(states[k], w)
    ensures OneGoes(states[k + 1], w)
  {
    ReachableInv(states[0]);
    RunKeepsInv(states, acts, k);
    assert Follows(states[k], acts[k], states[k + 1]);
    NextKeepsOneGoes(states[k], acts[k], w);
  }

  lemma {:induction false} RunKeepsOneGoes(states: seq<State>, acts: seq<Action>, j: nat, k: nat, w: nat)
    requires IsRun(states, acts) && Reachable(states[0]) && j <= k <= |acts| && OneGoes(states[j], w)
    ensures OneGoes(states[k], w)
  {
    if j < k {
      RunKeepsOneGoes(states, acts, j, k - 1, w);
      RunStepKeepsOneGoes(states, acts, k - 1, w);
    }
  }

  /** Whatever the threads do in between, when thpool_destroy has broadcast once and finds
      the workers at rest again, fewer of them are alive. */
  lemma RoundLowersAlive(states: seq<State>, acts: seq<Action>, j: nat, k: nat)
    requires IsRun(states, acts) && Reachable(states[0]) && j < k <= |acts|
    requires Testing(states[j]) && AtRest(states[j]) && acts[j] == Go(states[j].m.phase.destroyer)
    requires Testing(states[k]) && AtRest(states[k]) && states[j].m.counts.alive != 0
    ensures states[k].m.counts.alive < states[j].m.counts.alive
  {
    ReachableInv(states[0]);
    RunKeepsInv(states, acts, j);
    RunKeepsInv(states, acts, k);
    RestIsParked(states[j]);
    RestIsParked(states[k]);
    assert Follows(states[j], acts[j], states[j + 1]);
    var w := Sum(OneWaits, states[j].threads);
    SumUpdate(OneWaits, states[j].threads, states[j].m.phase.destroyer, Posting(InDestroy, PostLock));
    assert OneGoes(states[j + 1], w);
    RunKeepsOneGoes(states, acts, j + 1, k, w);
  }

  /** rounds are places of the run at which thpool_destroy goes on from its test, having
      found the workers at rest and some alive. */
  ghost predicate AreRounds(states: seq<State>, acts: seq<Action>, rounds: seq<nat>) {
    && (forall x :: 0 <= x < |rounds| ==> rounds[x] < |acts| < |states|)
    && (forall x :: 0 <= x < |rounds| ==> IsRound(states[rounds[x]], acts[rounds[x]]))
    && (forall x, y :: 0 <= x < y < |rounds| ==> rounds[x] < rounds[y])
  }

  ghost predicate IsRound(s: State, a: Action) {
    Testing(s) && AtRest(s) && s.m.counts.alive != 0 && a == Go(s.m.phase.destroyer)
  }

  /** So as many rounds as there are workers suffice. */
  lemma {:induction false} RoundsBounded(states: seq<State>, acts: seq<Action>, rounds: seq<nat>)
    requires IsRun(states, acts) && Reachable(states[0]) && AreRounds(states, acts, rounds) && rounds != []
    ensures |rounds| + states[rounds[|rounds| - 1]].m.counts.alive <= states[rounds[0]].m.counts.alive + 1
    ensures |rounds| <= states[rounds[0]].m.counts.alive
  {
    var last := |rounds| - 1;
    var alive := states[rounds[last]].m.counts.alive;
    AliveIsCount(states, acts, rounds[last]);
    if last > 0 {
      assert IsRound(states[rounds[last - 1]], acts[rounds[last - 1]]);
      RoundLowersAlive(states, acts, rounds[last - 1], rounds[last]);
      RoundsBounded(states, acts, rounds[..last]);
    }
  }

  lemma AliveIsCount(states: seq<State>, acts: seq<Action>, k: nat)
    requires IsRun(states, acts) && Reachable(states[0]) && k <= |acts|
    ensures states[k].m.counts.alive >= 0
  {
    ReachableInv(states[0]);
    RunKeepsInv(states, acts, k);
  }
}
