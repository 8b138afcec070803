/** The pool can do what it is for: any list of jobs can be submitted and is run to its end,
    and the pool can then be destroyed. */
module PoolLife {
  import opened PoolModel
  import opened PoolInvariants
  import opened PoolDraining
  import opened PoolWait
  import opened PoolShutdown
  import opened PoolRounds
  import opened PoolTermination
  import opened PoolSubmissions

  // ---- Building runs ----

  ghost predicate Leads(s: State, states: seq<State>, acts: seq<Action>, s': State) {
    IsRun(states, acts) && states[0] == s && states[|acts|] == s'
  }

  lemma NoStep(s: State)
    ensures Leads(s, [s], [], s)
  {
  }

  lemma LastStep(s: State, states: seq<State>, acts: seq<Action>, s': State, a: Action, s'': State)
    requires Leads(s, states, acts, s') && Follows(s', a, s'')
    ensures Leads(s, states + [s''], acts + [a], s'')
    ensures Calls(acts + [a]) == Calls(acts) + if a.AddWork? then [a.job] else []
  {
    forall i | 0 <= i < |acts| + 1 ensures Follows((states + [s''])[i], (acts + [a])[i], (states + [s''])[i + 1]) {
      if i < |acts| {
        assert Follows(states[i], acts[i], states[i + 1]);
      }
    }
    assert (acts + [a])[..|acts|] == acts;
  }

  /** Left to itself the pool comes to rest. */
  lemma {:induction false} ToQuiet(s: State, states: seq<State>, acts: seq<Action>, s': State)
    returns (states': seq<State>, acts': seq<Action>, quiet: State)
    requires Leads(s, states, acts, s') && Inv(s') && s'.m.keepalive
    ensures Leads(s, states', acts', quiet) && quiet.m.keepalive && Quiet(quiet) && Calls(acts') == Calls(acts)
    decreases StepsLeft(s')
  {
    if Quiet(s') {
      states', acts', quiet := states, acts, s';
    } else {
      var a :| IsPoolStep(a) && Enabled(s', a);
      var s'' := Next(s', a);
      PoolStepConsumes(s', a);
      NextKeepsInv(s', a);
      LastStep(s, states, acts, s', a, s'');
      states', acts', quiet := ToQuiet(s, states + [s''], acts + [a], s'');
    }
  }

  lemma NextPulls(s: State, a: Action)
    requires Enabled(s, a)
    ensures s.m.log.pulled <= Next(s, a).m.log.pulled
  {
    if a.Go? {
      StepPulls(s.m, a.t, s.threads[a.t]);
    }
  }

  /** And once it is being destroyed, to its end. */
  lemma {:induction false} ToEnd(s: State, states: seq<State>, acts: seq<Action>, s': State)
    returns (states': seq<State>, acts': seq<Action>, end: State)
    requires Leads(s, states, acts, s') && Inv(s') && !s'.m.keepalive && ClearBefore(s')
    ensures Leads(s, states', acts', end) && !end.m.keepalive && Calls(acts') == Calls(acts)
    ensures s'.m.log.pulled <= end.m.log.pulled
    ensures forall a :: IsPatientStep(end, a) ==> !Enabled(end, a)
    decreases StepsToEnd(s')
  {
    if forall a :: IsPatientStep(s', a) ==> !Enabled(s', a) {
      states', acts', end := states, acts, s';
    } else {
      var a :| IsPatientStep(s', a) && Enabled(s', a);
      var s'' := Next(s', a);
      PatientStepEnds(s', a);
      NextKeepsInv(s', a);
      NextKeepsClear(s', a);
      NextPulls(s', a);
      LastStep(s, states, acts, s', a, s'');
      states', acts', end := ToEnd(s, states + [s''], acts + [a], s'');
    }
  }

  // ---- Its life ----

  function Fresh(n: nat): State {
    State(n, FRESH_MEMORY, seq(n, _ => Counting(Register, Enter)) + [Idle])
  }

  /** A pool with n workers and one caller at rest after the calls for these jobs. */
  ghost predicate Served(n: nat, jobs: seq<Job>, states: seq<State>, acts: seq<Action>, s: State) {
    Leads(Fresh(n), states, acts, s) && Calls(acts) == jobs && s.m.keepalive && Quiet(s)
  }

  /** Such a pool takes more work and can be destroyed. */
  lemma Rested(n: nat, jobs: seq<Job>, states: seq<State>, acts: seq<Action>, s: State)
    requires n >= 1 && Served(n, jobs, states, acts, s)
    ensures Enabled(s, Destroy(n)) && forall job :: Enabled(s, AddWork(n, job))
  {
    assert RunTo(states, acts, s);
    WorkersStay(states, acts, |acts|);
    StopsOnlyDrained(s);
  }

  /** And it has finished the jobs. */
  lemma RestedJobs(n: nat, jobs: seq<Job>, states: seq<State>, acts: seq<Action>, s: State)
    requires n >= 1 && Served(n, jobs, states, acts, s)
    ensures s.m.log.finished == multiset(jobs) && multiset(s.m.log.pulled) == multiset(jobs)
  {
    assert RunTo(states, acts, s);
    WorkersStay(states, acts, |acts|);
    SubmittedIsFinished(states, acts);
    JobsAtRest(s);
  }

  lemma JobsAtRest(s: State)
    requires Reachable(s) && s.m.keepalive && s.n >= 1 && Quiet(s)
    ensures s.m.log.finished == multiset(s.m.log.pulled)
  {
    StopsOnlyDrained(s);
    ReachableInv(s);
    NothingInHand(s);
  }

  lemma ServedInv(n: nat, jobs: seq<Job>, states: seq<State>, acts: seq<Action>, s: State)
    requires Served(n, jobs, states, acts, s)
    ensures Inv(s)
  {
    assert RunTo(states, acts, s);
    ReachableInv(s);
  }

  lemma OneMore(n: nat, jobs: seq<Job>, states0: seq<State>, acts0: seq<Action>, s0: State, job: Job)
    returns (states: seq<State>, acts: seq<Action>, s: State)
    requires n >= 1 && Served(n, jobs, states0, acts0, s0)
    ensures Served(n, jobs + [job], states, acts, s)
  {
    Rested(n, jobs, states0, acts0, s0);
    ServedInv(n, jobs, states0, acts0, s0);
    var a := AddWork(n, job);
    var s1 := Next(s0, a);
    NextKeepsInv(s0, a);
    LastStep(Fresh(n), states0, acts0, s0, a, s1);
    states, acts, s := ToQuiet(Fresh(n), states0 + [s1], acts0 + [a], s1);
  }

  lemma {:induction false} ServesAll(n: nat, jobs: seq<Job>)
    returns (states: seq<State>, acts: seq<Action>, s: State)
    requires n >= 1
    ensures Served(n, jobs, states, acts, s)
  {
    if jobs == [] {
      NoStep(Fresh(n));
      InitInv(Fresh(n));
      states, acts, s := ToQuiet(Fresh(n), [Fresh(n)], [], Fresh(n));
    } else {
      var last := |jobs| - 1;
      states, acts, s := ServesAll(n, jobs[..last]);
      states, acts, s := OneMore(n, jobs[..last], states, acts, s, jobs[last]);
      assert jobs == jobs[..last] + [jobs[last]];
    }
  }

  /** With a worker, any jobs can be submitted in any order, and all are finished. */
  lemma Serves(n: nat, jobs: seq<Job>) returns (states: seq<State>, acts: seq<Action>, s: State)
    requires n >= 1
    ensures Leads(Fresh(n), states, acts, s) && Init(states[0]) && Calls(acts) == jobs
    ensures s.m.keepalive && Quiet(s) && s.m.log.finished == multiset(jobs)
  {
    states, acts, s := ServesAll(n, jobs);
    RestedJobs(n, jobs, states, acts, s);
  }

  lemma Retire(n: nat, jobs: seq<Job>, states0: seq<State>, acts0: seq<Action>, s: State)
    returns (states: seq<State>, acts: seq<Action>, end: State)
    requires n >= 1 && Served(n, jobs, states0, acts0, s)
    ensures Leads(Fresh(n), states, acts, end) && Calls(acts) == jobs && !end.m.keepalive
    ensures forall a :: IsPatientStep(end, a) ==> !Enabled(end, a)
    ensures |end.m.log.pulled| >= |jobs|
  {
    Rested(n, jobs, states0, acts0, s);
    RestedJobs(n, jobs, states0, acts0, s);
    ServedInv(n, jobs, states0, acts0, s);
    var a := Destroy(n);
    var s1 := Next(s, a);
    NextKeepsInv(s, a);
    LastStep(Fresh(n), states0, acts0, s, a, s1);
    assert |multiset(s.m.log.pulled)| == |multiset(jobs)|;
    states, acts, end := ToEnd(Fresh(n), states0 + [s1], acts0 + [a], s1);
  }

  /** A whole life: the jobs are submitted, each is run, none is thrown away, and the pool
      is destroyed. */
  lemma WholeLife(n: nat, jobs: seq<Job>) returns (states: seq<State>, acts: seq<Action>, end: State)
    requires n >= 1
    ensures Leads(Fresh(n), states, acts, end) && Init(states[0]) && Calls(acts) == jobs
    ensures exists d :: n <= d < |end.threads| && end.threads[d].Destroyed?
    ensures end.m.log.finished == multiset(jobs) && end.m.log.discarded == []
  {
    var states0, acts0, s := ServesAll(n, jobs);
    states, acts, end := Retire(n, jobs, states0, acts0, s);
    Ended(n, jobs, states, acts, end);
  }

  lemma Ended(n: nat, jobs: seq<Job>, states: seq<State>, acts: seq<Action>, end: State)
    requires Leads(Fresh(n), states, acts, end) && Calls(acts) == jobs && !end.m.keepalive
    requires forall a :: IsPatientStep(end, a) ==> !Enabled(end, a)
    requires |end.m.log.pulled| >= |jobs|
    ensures exists d :: n <= d < |end.threads| && end.threads[d].Destroyed?
    ensures end.m.log.finished == multiset(jobs) && end.m.log.discarded == []
  {
    assert RunTo(states, acts, end);
    WorkersStay(states, acts, |acts|);
    EndsDestroyed(end);
    var d :| n <= d < |end.threads| && end.threads[d].Destroyed?;
    SubmittedIsAccountedFor(states, acts, d);
    EveryJobAccountedFor(end, d);
    assert |multiset(jobs)| == |jobs|;
    assert multiset(end.m.log.pushed) == multiset(jobs);
    assert |multiset(end.m.log.pushed)| == |end.m.log.pushed|;
  }
}
