/** From thpool_add_work to the end of the job: what the callers submit, told from the steps
    of a run alone, is what the pool has pushed, finished or thrown away. */
module PoolSubmissions {
  import opened Sums
  import opened PoolModel
  import opened PoolInvariants
  import opened PoolDraining
  import opened PoolWait
  import opened PoolShutdown

  /** The jobs of the calls of thpool_add_work, in the order of the calls. */
  function Calls(acts: seq<Action>): seq<Job> {
    if acts == [] then []
    else
      var last := acts[|acts| - 1];
      Calls(acts[..|acts| - 1]) + if last.AddWork? then [last.job] else []
  }

  function Submitted(acts: seq<Action>): multiset<Job> { multiset(Calls(acts)) }

  /** A call that has not yet linked its job. */
  function Pending(job: Job): Pc -> nat {
    (p: Pc) => if p == Pushing(PushLock(job)) || p == Pushing(PushLink(job)) then 1 else 0
  }

  lemma StepPushes(m: Memory, t: nat, p: Pc, job: Job)
    requires Runnable(m, p)
    ensures var (m', p') := Step(m, t, p);
            multiset(m'.log.pushed)[job] + Pending(job)(p') == multiset(m.log.pushed)[job] + Pending(job)(p)
  {
    var (m', p') := Step(m, t, p);
    if p.Pushing? && p.push.PushLink? {
    } else {
      assert m'.log.pushed == m.log.pushed;
    }
  }

  function Handed(s: State, job: Job): nat { multiset(s.m.log.pushed)[job] + Sum(Pending(job), s.threads) }

  lemma GoPushes(s: State, t: nat, job: Job)
    requires Enabled(s, Go(t))
    ensures Handed(Next(s, Go(t)), job) == Handed(s, job)
  {
    StepPushes(s.m, t, s.threads[t], job);
    SumUpdate(Pending(job), s.threads, t, Step(s.m, t, s.threads[t]).1);
  }

  lemma NextPushes(s: State, a: Action, s': State, job: Job)
    requires Follows(s, a, s')
    ensures Handed(s', job) == Handed(s, job) + if a.AddWork? && a.job == job then 1 else 0
  {
    match a
    case Go(t) => GoPushes(s, t, job);
    case Signal(_, _) => SumPointwise(Pending(job), s.threads, s'.threads);
    case Spurious(t) => EntryPushes(s, t, s', Waiting(Woken), job);
    case AddWork(t, j) => EntryPushes(s, t, s', Pushing(PushLock(j)), job);
    case Destroy(t) => EntryPushes(s, t, s', DestroyTest, job);
    case InitReturn =>
  }

  lemma EntryPushes(s: State, t: nat, s': State, p: Pc, job: Job)
    requires t < |s.threads| && Pending(job)(s.threads[t]) == 0
    requires s'.threads == s.threads[t := p] && s'.m.log.pushed == s.m.log.pushed
    ensures Handed(s', job) == Handed(s, job) + Pending(job)(p)
  {
    SumUpdate(Pending(job), s.threads, t, p);
  }

  lemma CallsNext(acts: seq<Action>, k: nat)
    requires k < |acts|
    ensures Calls(acts[..k + 1]) == Calls(acts[..k]) + if acts[k].AddWork? then [acts[k].job] else []
  {
    assert acts[..k + 1][..k] == acts[..k];
  }

  /** In every run each job has been submitted as often as it was pushed or is about to be. */
  lemma {:induction false} SubmittedIsPushed(states: seq<State>, acts: seq<Action>, k: nat, job: Job)
    requires IsRun(states, acts) && Init(states[0]) && k <= |acts|
    ensures Submitted(acts[..k])[job] == multiset(states[k].m.log.pushed)[job] + Sum(Pending(job), states[k].threads)
  {
    if k > 0 {
      SubmittedIsPushed(states, acts, k - 1, job);
      CallsNext(acts, k - 1);
      assert Follows(states[k - 1], acts[k - 1], states[k - 1 + 1]);
      NextPushes(states[k - 1], acts[k - 1], states[k], job);
    } else {
      SumAllZero(Pending(job), states[0].threads);
    }
  }

  lemma PushedWhenNonePending(states: seq<State>, acts: seq<Action>)
    requires IsRun(states, acts) && Init(states[0])
    requires forall i :: 0 <= i < |states[|acts|].threads| ==> !states[|acts|].threads[i].Pushing?
    ensures Submitted(acts) == multiset(states[|acts|].m.log.pushed)
  {
    var s := states[|acts|];
    assert acts[..|acts|] == acts;
    forall job ensures Submitted(acts)[job] == multiset(s.m.log.pushed)[job] {
      SubmittedIsPushed(states, acts, |acts|, job);
      SumAllZero(Pending(job), s.threads);
    }
    CountsToMultiset(Submitted(acts), multiset(s.m.log.pushed));
  }

  /** A pool with a worker that is in use and can do no more has finished exactly the jobs
      that were submitted to it, each as often as it was. */
  lemma SubmittedIsFinished(states: seq<State>, acts: seq<Action>)
    requires IsRun(states, acts) && Init(states[0]) && states[0].n >= 1
    requires states[|acts|].m.keepalive && Quiet(states[|acts|])
    ensures states[|acts|].m.log.finished == Submitted(acts)
  {
    var s := states[|acts|];
    assert RunTo(states, acts, s);
    WorkersStay(states, acts, |acts|);
    StopsOnlyDrained(s);
    PushedWhenNonePending(states, acts);
  }

  /** In a destroyed pool each job submitted was finished or discarded, as often as it was
      submitted. */
  lemma SubmittedIsAccountedFor(states: seq<State>, acts: seq<Action>, d: nat)
    requires IsRun(states, acts) && Init(states[0])
    requires d < |states[|acts|].threads| && states[|acts|].threads[d].Destroyed?
    ensures Submitted(acts) == states[|acts|].m.log.finished + multiset(states[|acts|].m.log.discarded)
  {
    var s := states[|acts|];
    assert RunTo(states, acts, s);
    EveryJobAccountedFor(s, d);
    ReachableInv(s);
    assert Local(s.m, d, s.threads[d]);
    forall i | 0 <= i < |s.threads| ensures !s.threads[i].Pushing? {
      assert Local(s.m, i, s.threads[i]);
    }
    PushedWhenNonePending(states, acts);
  }

  lemma {:induction false} WorkersStay(states: seq<State>, acts: seq<Action>, k: nat)
    requires IsRun(states, acts) && k <= |acts|
    ensures states[k].n == states[0].n && |states[k].threads| == |states[0].threads|
  {
    if k > 0 {
      WorkersStay(states, acts, k - 1);
      assert Follows(states[k - 1], acts[k - 1], states[k - 1 + 1]);
    }
  }

  // ---- What a waiter sees ----

  /** Inside thpool_add_work, before len is written. */
  function OneUnfinished(p: Pc): nat { if p.Pushing? && !p.push.PushUnlock? then 1 else 0 }

  /** If thpool_wait reads len as 0 and later working as 0, every job submitted before the
      first read has finished by the second, but for the calls that were still before their
      write of len at the first. */
  lemma WaitSeesSubmitted(states: seq<State>, acts: seq<Action>, j: nat, k: nat, job: Job)
    requires IsRun(states, acts) && Init(states[0]) && j <= k <= |acts| && states[j].m.keepalive
    requires states[j].m.queue.len == 0 && states[k].m.counts.working == 0
    ensures Submitted(acts[..j])[job] <= states[k].m.log.finished[job] + Sum(OneUnfinished, states[j].threads)
  {
    var s := states[j];
    assert IsRun([states[0]], []) && RunTo([states[0]], [], states[0]);
    WaitSeesCompletion(states, acts, j, k);
    SubmittedIsPushed(states, acts, j, job);
    LenWriters(s, job);
  }

  lemma LenWriters(s: State, job: Job)
    ensures multiset(s.m.log.pushed)[job] + Sum(Pending(job), s.threads)
              <= multiset(Completed(s))[job] + Sum(OneUnfinished, s.threads)
  {
    var q := s.m.log.pushed;
    PendingFewer(s.threads, job);
    if q != [] && exists i :: 0 <= i < |s.threads| && AddsLen(s.threads[i]) {
      var i :| 0 <= i < |s.threads| && AddsLen(s.threads[i]);
      PendingFewerBut(s.threads, job, i);
      assert q == Completed(s) + [q[|q| - 1]];
    }
  }

  lemma {:induction false} PendingFewer(ts: seq<Pc>, job: Job)
    ensures Sum(Pending(job), ts) <= Sum(OneUnfinished, ts)
  {
    if ts != [] {
      PendingFewer(ts[1..], job);
    }
  }

  lemma {:induction false} PendingFewerBut(ts: seq<Pc>, job: Job, i: nat)
    requires i < |ts| && AddsLen(ts[i])
    ensures Sum(Pending(job), ts) + 1 <= Sum(OneUnfinished, ts)
  {
    if i == 0 {
      PendingFewer(ts[1..], job);
    } else {
      assert ts[1..][i - 1] == ts[i];
      PendingFewerBut(ts[1..], job, i - 1);
    }
  }

  // ---- One caller ----

  function PendingOf(p: Pc): seq<Job> {
    match p
    case Pushing(PushLock(job)) => [job]
    case Pushing(PushLink(job)) => [job]
    case _ => []
  }

  lemma StepPushesInOrder(m: Memory, t: nat, p: Pc)
    requires Runnable(m, p)
    ensures var (m', p') := Step(m, t, p);
            && m'.log.pushed + PendingOf(p') == m.log.pushed + PendingOf(p)
            && (IsWorkerPc(p) ==> m'.log.pushed == m.log.pushed)
  {
  }

  lemma RunInv(states: seq<State>, acts: seq<Action>, k: nat)
    requires IsRun(states, acts) && Init(states[0]) && k <= |acts|
    ensures Inv(states[k]) && states[k].n == states[0].n && |states[k].threads| == |states[0].threads|
  {
    InitInv(states[0]);
    RunKeepsInv(states, acts, k);
    WorkersStay(states, acts, k);
  }

  lemma RunOneCaller(states: seq<State>, acts: seq<Action>, k: nat)
    requires IsRun(states, acts) && Init(states[0]) && k < |acts| && |states[0].threads| == states[0].n + 1
    ensures |states[k].threads| == |states[k + 1].threads| == states[0].n + 1
    ensures states[k + 1].m.log.pushed + PendingOf(states[k + 1].threads[states[0].n])
              == states[k].m.log.pushed + PendingOf(states[k].threads[states[0].n])
                 + if acts[k].AddWork? then [acts[k].job] else []
  {
    RunInv(states, acts, k);
    WorkersStay(states, acts, k + 1);
    assert Follows(states[k], acts[k], states[k + 1]);
    OneCallerStep(states[k], acts[k], states[k + 1]);
  }

  /** The jobs of a pool with one caller are pushed in the order of its calls, and so, the
      queue being one, pulled in that order. */
  lemma OneCallerInOrder(states: seq<State>, acts: seq<Action>)
    requires IsRun(states, acts) && Init(states[0]) && |states[0].threads| == states[0].n + 1
    ensures |states[|acts|].threads| == states[0].n + 1
    ensures states[|acts|].m.log.pushed + PendingOf(states[|acts|].threads[states[0].n]) == Calls(acts)
    ensures states[|acts|].m.log.pulled <= Calls(acts)
  {
    RunInv(states, acts, |acts|);
    OneCallerTo(states, acts, |acts|);
    assert acts[..|acts|] == acts;
    assert states[|acts|].m.log.pulled <= states[|acts|].m.log.pushed;
  }

  lemma {:induction false} OneCallerTo(states: seq<State>, acts: seq<Action>, k: nat)
    requires IsRun(states, acts) && Init(states[0]) && k <= |acts| && |states[0].threads| == states[0].n + 1
    ensures |states[k].threads| == states[0].n + 1
    ensures states[k].m.log.pushed + PendingOf(states[k].threads[states[0].n]) == Calls(acts[..k])
  {
    if k > 0 {
      OneCallerTo(states, acts, k - 1);
      RunOneCaller(states, acts, k - 1);
      CallsNext(acts, k - 1);
    }
  }

  lemma OneCallerGo(s: State, t: nat)
    requires Threads(s) && Enabled(s, Go(t)) && |s.threads| == s.n + 1
    ensures var s' := Next(s, Go(t));
            s'.m.log.pushed + PendingOf(s'.threads[s.n]) == s.m.log.pushed + PendingOf(s.threads[s.n])
  {
    StepPushesInOrder(s.m, t, s.threads[t]);
  }

  lemma OneCallerStep(s: State, a: Action, s': State)
    requires Threads(s) && Follows(s, a, s') && |s.threads| == s.n + 1
    ensures s'.m.log.pushed + PendingOf(s'.threads[s.n])
              == s.m.log.pushed + PendingOf(s.threads[s.n]) + if a.AddWork? then [a.job] else []
  {
    match a
    case Go(t) => OneCallerGo(s, t);
    case Spurious(t) => assert IsWorkerPc(s.threads[t]);
    case AddWork(t, _) => assert !IsWorkerPc(s.threads[t]);
    case _ =>
  }
}
