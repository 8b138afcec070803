/** thpool_destroy ends: in whatever order the threads run, if it goes on from its test of
    num_threads_alive only when the workers have come to rest, which is what it sleeps for. */
module PoolTermination {
  import opened Sums
  import opened PoolModel
  import opened PoolInvariants
  import opened PoolDraining
  import opened PoolShutdown
  import opened PoolRounds

  /** A step of the pool in which thpool_destroy looks at num_threads_alive, and so goes on
      to its next broadcast, only once the workers have come to rest. */
  ghost predicate IsPatientStep(s: State, a: Action) {
    match a
    case Go(t) => t < |s.threads| && (s.threads[t].DestroyTest? ==> AtRest(s))
    case Signal(_, _) => true
    case _ => false
  }

  // ---- The bit is clear before a broadcast sets it ----

  ghost predicate ClearBefore(s: State) {
    Setting(s) ==> ParkedOrGone(s) && !s.m.sem.v
  }

  predicate Setting(s: State) {
    s.m.phase.Stopping? && s.m.phase.destroyer < |s.threads| && AboutToSet(s.threads[s.m.phase.destroyer])
  }

  /** Then only thpool_destroy can move. */
  lemma OnlyDestroyer(s: State, t: nat)
    requires Inv(s) && Setting(s) && ParkedOrGone(s) && t < |s.threads|
    requires Runnable(s.m, s.threads[t]) || (s.threads[t].Posting? && s.threads[t].post.PostSignal?)
    ensures t == s.m.phase.destroyer
  {
    assert Local(s.m, t, s.threads[t]);
  }

  lemma GoKeepsClear(s: State, t: nat)
    requires Inv(s) && Enabled(s, Go(t)) && IsPatientStep(s, Go(t)) && ClearBefore(s)
    ensures ClearBefore(Next(s, Go(t)))
  {
    var s', p := Next(s, Go(t)), s.threads[t];
    assert Local(s.m, t, p);
    PhaseStays(s.m, t, p);
    if Setting(s) {
      OnlyDestroyer(s, t);
    } else if Setting(s') {
      assert p.DestroyTest? && t == s.m.phase.destroyer;
      RestIsParked(s);
    }
  }

  lemma NextKeepsClear(s: State, a: Action)
    requires Inv(s) && Enabled(s, a) && IsPatientStep(s, a) && ClearBefore(s)
    ensures ClearBefore(Next(s, a))
  {
    match a
    case Go(t) => GoKeepsClear(s, t);
    case Signal(t, _) =>
      if Setting(s) {
        OnlyDestroyer(s, t);
      }
  }

  // ---- A bound on the steps still to come ----

  /** What only falls: workers that may park, two for each; a job queued; the bit clear; and
      how far thpool_destroy has come. */
  function Course(p: Pc): nat {
    2 * OneWaits(p) + if p.DestroyTest? || (p.Posting? && p.caller.InDestroy?) then 2
                      else if p.Emptying? || (p.Posting? && p.caller.InClear?) then 1
                      else 0
  }

  function Stock(m: Memory): nat { |m.queue.chain| + if m.sem.v then 0 else 1 }

  /** A signal that a thread will send before anything in its Course changes. */
  function OneSignal(p: Pc): nat {
    match p
    case Counting(Busy, _) => 1
    case Pulling(PullLock) => 1
    case Pulling(PullFront) => 1
    case Pulling(PullLen(_, more)) => if more then 1 else 0
    case Emptying(ClearLen(more)) => if more then 1 else 0
    case Posting(c, at) => if at.PostSignal? || (!c.InDestroy? && !at.PostUnlock?) then 1 else 0
    case _ => 0
  }

  /** The instructions of a thread up to its rest, in a pool that is stopping. */
  function Instructions(p: Pc): nat {
    match p
    case Counting(Busy, at) => if at.Enter? then 19 else if at.Write? then 18 else 17
    case Pulling(PullLock) => 16
    case Pulling(PullFront) => 15
    case Pulling(PullLen(_, _)) => 14
    case Posting(InPull(_), at) =>
      if at.PostLock? then 13 else if at.PostSet? then 12 else if at.PostSignal? then 11 else 10
    case Pulling(PullUnlock(_)) => 9
    case Waiting(at) =>
      if at.Parked? then 0 else if at.SemLock? || at.Woken? then 9 else if at.SemTest? then 8
      else if at.SemTake? then 7 else 6
    case Run(_) => 8
    case Counting(Exit, at) => if at.Enter? then 3 else if at.Write? then 2 else 1
    case Counting(_, at) => if at.Enter? then 7 else if at.Write? then 6 else 5
    case InnerTest => 5
    case LoopTest => 4
    case Posting(InDestroy, at) =>
      if at.PostSignal? then 5 else if at.PostUnlock? then 4 else if at.PostLock? then 2 else 1
    case DestroyTest => 3
    case Emptying(ClearLen(_)) => 7
    case Posting(InClear, at) =>
      if at.PostLock? then 6 else if at.PostSet? then 5 else if at.PostSignal? then 4 else 3
    case Emptying(ClearTest) => 2
    case Emptying(_) => 1
    case _ => 0
  }

  lemma StepLowersCourse(m: Memory, t: nat, p: Pc)
    requires Runnable(m, p) && Local(m, t, p) && Shared(m) && !m.keepalive
    ensures var (m', p') := Step(m, t, p); !m'.keepalive && Stock(m') + Course(p') <= Stock(m) + Course(p)
  {
  }

  lemma StepEnds(m: Memory, t: nat, p: Pc)
    requires Runnable(m, p) && Local(m, t, p) && Shared(m) && !m.keepalive
    requires p == Posting(InDestroy, PostSet) ==> !m.sem.v
    ensures var (m', p') := Step(m, t, p);
            Stock(m') + Course(p') == Stock(m) + Course(p) ==>
              OneSignal(p') < OneSignal(p) || (OneSignal(p') == OneSignal(p) && Instructions(p') < Instructions(p))
  {
  }

  function Way(s: State): nat { Stock(s.m) + Sum(Course, s.threads) }
  function Signals(s: State): nat { Sum(OneSignal, s.threads) }
  function Work(s: State): nat { Sum(Instructions, s.threads) }

  function StepsToEnd(s: State): nat {
    (Way(s) * (|s.threads| + 1) + Signals(s)) * (19 * |s.threads| + 1) + Work(s)
  }

  lemma LexLower(a: nat, b: nat, c: nat, a': nat, b': nat, c': nat, signals: nat, work: nat)
    requires b' < signals && c' < work
    requires a' < a || (a' == a && b' < b) || (a' == a && b' == b && c' < c)
    ensures (a' * signals + b') * work + c' < (a * signals + b) * work + c
  {
    if a' < a || b' < b {
      LexToNat(a, b, a', b', signals);
      LexToNat(a * signals + b, c, a' * signals + b', c', work);
    }
  }

  predicate Nearer(s: State, s': State) {
    && |s'.threads| == |s.threads|
    && (|| Way(s') < Way(s)
        || (Way(s') == Way(s) && Signals(s') < Signals(s))
        || (Way(s') == Way(s) && Signals(s') == Signals(s) && Work(s') < Work(s)))
  }

  lemma NearerIsLess(s: State, s': State)
    requires Nearer(s, s')
    ensures StepsToEnd(s') < StepsToEnd(s)
  {
    SumBound(OneSignal, s'.threads, 1);
    SumBound(Instructions, s'.threads, 19);
    LexLower(Way(s), Signals(s), Work(s), Way(s'), Signals(s'), Work(s'), |s.threads| + 1, 19 * |s.threads| + 1);
  }

  lemma GoEnds(s: State, t: nat)
    requires Inv(s) && !s.m.keepalive && Enabled(s, Go(t))
    requires ClearBefore(s)
    ensures var s' := Next(s, Go(t));
            !s'.m.keepalive && Nearer(s, s')
  {
    var p := s.threads[t];
    assert Local(s.m, t, p);
    StepLowersCourse(s.m, t, p);
    StepEnds(s.m, t, p);
    var p' := Step(s.m, t, p).1;
    SumUpdate(Course, s.threads, t, p');
    SumUpdate(OneSignal, s.threads, t, p');
    SumUpdate(Instructions, s.threads, t, p');
  }

  lemma SignalEnds(s: State, t: nat, woken: set<nat>)
    requires CanSignal(s, t, woken)
    ensures Nearer(s, Next(s, Signal(t, woken)))
  {
    var s' := Next(s, Signal(t, woken));
    SumPointwise(Course, s.threads, s'.threads);
    var q := Posting(s.threads[t].caller, PostUnlock);
    SumUpdate(OneSignal, s.threads, t, q);
    SumPointwise(OneSignal, s.threads[t := q], s'.threads);
  }

  // ---- The end ----

  lemma PatientStepEnds(s: State, a: Action)
    requires Inv(s) && !s.m.keepalive && Enabled(s, a) && IsPatientStep(s, a) && ClearBefore(s)
    ensures !Next(s, a).m.keepalive && StepsToEnd(Next(s, a)) < StepsToEnd(s)
  {
    match a {
      case Go(t) => GoEnds(s, t);
      case Signal(t, woken) => SignalEnds(s, t, woken);
    }
    NearerIsLess(s, Next(s, a));
  }

  /** From any test of num_threads_alive on, a shutdown performs at most StepsToEnd more
      steps, if it goes on from each test only when the workers have come to rest. */
  lemma ShutdownEnds(states: seq<State>, acts: seq<Action>)
    requires IsRun(states, acts) && Reachable(states[0]) && Testing(states[0])
    requires forall i :: 0 <= i < |acts| ==> IsPatientStep(states[i], acts[i])
    ensures |acts| <= StepsToEnd(states[0])
  {
    ReachableInv(states[0]);
    EndsFrom(states, acts, 0);
  }

  lemma {:induction false} EndsFrom(states: seq<State>, acts: seq<Action>, k: nat)
    requires IsRun(states, acts) && k <= |acts| && Inv(states[k]) && !states[k].m.keepalive && ClearBefore(states[k])
    requires forall i :: 0 <= i < |acts| ==> IsPatientStep(states[i], acts[i])
    ensures |acts| - k <= StepsToEnd(states[k])
    decreases |acts| - k
  {
    if k < |acts| {
      assert Follows(states[k], acts[k], states[k + 1]);
      assert IsPatientStep(states[k], acts[k]);
      PatientStepEnds(states[k], acts[k]);
      NextKeepsInv(states[k], acts[k]);
      NextKeepsClear(states[k], acts[k]);
      EndsFrom(states, acts, k + 1);
    }
  }

  /** And where it can make no such step the pool is destroyed, with every worker exited and
      the queue empty. */
  lemma EndsDestroyed(s: State)
    requires Reachable(s) && !s.m.keepalive
    requires forall a :: IsPatientStep(s, a) ==> !Enabled(s, a)
    ensures exists d :: s.n <= d < |s.threads| && s.threads[d].Destroyed?
    ensures forall i :: 0 <= i < |s.threads| && i < s.n ==> s.threads[i].Exited?
    ensures s.m.queue.chain == [] && s.m.counts.alive == 0
  {
    ReachableInv(s);
    forall i | 0 <= i < |s.threads| && i < s.n
      ensures !Runnable(s.m, s.threads[i]) && !(s.threads[i].Posting? && s.threads[i].post.PostSignal?)
    {
      assert IsWorkerPc(s.threads[i]);
      assert !Enabled(s, Go(i));
      var all := set j: nat | j < |s.threads| && IsParked(s.threads[j]);
      assert forall j: nat :: j < |s.threads| && IsParked(s.threads[j]) ==> j in all;
      assert IsPatientStep(s, Signal(i, all)) && !Enabled(s, Signal(i, all));
    }
    forall a | IsPoolStep(a) ensures !Enabled(s, a) {
      if a.Go? && Enabled(s, a) {
        assert IsPatientStep(s, a);
      }
    }
    StopsOnlyDestroyed(s);
  }
}
