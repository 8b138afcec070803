/** How a job moves on: when it can be assigned, and how many replies then complete it. */
module JobProgress {
  import opened Sums
  import opened JobTables
  import opened JobProtocol
  import opened JobTheorems

  /** Of what Enabled asks for an assignment, a caller has to see to three things only: the
      group is busy with a job that is not started, a client of it is free, and the data
      set has a line for each. The lookups never fail. */
  lemma AssignableIff(s: State, g: nat)
    requires Reachable(s) && g < NUMBER_OF_GROUPS
    ensures Sized(s)
    ensures s.groups[g].status == BUSY ==> Has(s.jobs, s.groups[g].jobId) && s.groups[g].jobId in s.data
    ensures Enabled(s, Assign(g)) <==>
              && s.groups[g].status == BUSY && Get(s.jobs, s.groups[g].jobId).status == NOT_STARTED
              && 0 < |FreeMembers(s.slots, s.groups[g].members)| <= |s.data[s.groups[g].jobId]|
  {
    ReachableInv(s);
    var id := s.groups[g].jobId;
    if Has(s.jobs, id) {
      assert Accounted(s, id);
    }
  }

  /** A job can be started exactly when it asks for a minimum or a maximum and some group is
      free and has a member. */
  lemma StartableIff(s: State, operation: int, lines: seq<int>)
    requires Sized(s)
    ensures Enabled(s, StartJob(operation, lines)) <==>
              && (operation == 1 || operation == 2)
              && exists g :: 0 <= g < NUMBER_OF_GROUPS && s.groups[g].status == FREE && s.groups[g].members != []
  {
    var g := FindFreeGroup(s.groups, 0);
  }

  /** A client can be registered exactly when its slot is empty and its groups exist and
      differ. */
  lemma RegistrableIff(s: State, fd: nat, gs: seq<int>)
    requires Sized(s)
    ensures Enabled(s, Register(fd, gs)) <==>
              && s.slots[HashFunc(fd)].fd == -1
              && (forall k :: 0 <= k < |gs| ==> 0 <= gs[k] < 1000)
              && (forall k, j :: 0 <= k < j < |gs| ==> gs[k] != gs[j])
  {
  }

  function RepliesIn(steps: seq<Step>, id: int): nat {
    if steps == [] then 0
    else RepliesIn(steps[..|steps| - 1], id) + if IsReplyTo(steps[|steps| - 1], id) then 1 else 0
  }

  predicate IsReplyTo(a: Step, id: int) { a.Reply? && a.job == id }

  /** The job has been assigned. */
  predicate Assigned(s: State, id: int) { Has(s.jobs, id) && Get(s.jobs, id).status != NOT_STARTED }

  lemma OutstandingIs(s: State, id: int)
    requires Inv(s) && Assigned(s, id)
    ensures |RepliesTo(s, id)| + Outstanding(s, id) == Get(s.jobs, id).clients
    ensures Get(s.jobs, id).status == COMPLETE <==> Outstanding(s, id) == 0
  {
    assert Accounted(s, id);
  }

  lemma ReplyReplies(s: State, fd: nat, job: int, value: int, id: int)
    requires Inv(s) && Enabled(s, Reply(fd, job, value)) && Assigned(s, id)
    ensures var s' := ReplyNext(s, fd, job, value);
            && Assigned(s', id) && Get(s'.jobs, id).clients == Get(s.jobs, id).clients
            && |RepliesTo(s', id)| == |RepliesTo(s, id)| + if job == id then 1 else 0
  {
    ReplyLookups(s, fd, job, value);
    ReplyCompletesLast(s, fd, job, value);
  }

  lemma OtherReplies(s: State, a: Step, id: int)
    requires Inv(s) && Enabled(s, a) && Assigned(s, id) && !a.Reply?
    ensures var s' := Next(s, a);
            && Assigned(s', id) && Get(s'.jobs, id).clients == Get(s.jobs, id).clients
            && RepliesTo(s', id) == RepliesTo(s, id)
  {
    match a
    case Register(_, _) =>
    case StartJob(operation, lines) => StartJobLookups(s, operation, lines, id);
    case Assign(g) => AssignLookups(s, g, id);
  }

  /** Only a reply to the job adds to its replies. */
  lemma StepReplies(s: State, a: Step, s': State, id: int)
    requires Inv(s) && Follows(s, a, s') && Assigned(s, id)
    ensures Assigned(s', id) && Get(s'.jobs, id).clients == Get(s.jobs, id).clients
    ensures |RepliesTo(s', id)| == |RepliesTo(s, id)| + if IsReplyTo(a, id) then 1 else 0
  {
    if a.Reply? {
      ReplyReplies(s, a.fd, a.job, a.value, id);
    } else {
      OtherReplies(s, a, id);
    }
  }

  /** In every run from a state in which a job has been assigned, the job is complete exactly
      when the run has had as many replies to it as were outstanding at its start; it
      never has more. */
  lemma CompletesAfterOutstanding(states: seq<State>, steps: seq<Step>, id: int)
    requires IsRun(states, steps) && Reachable(states[0]) && Assigned(states[0], id)
    ensures Assigned(states[|steps|], id) && RepliesIn(steps, id) <= Outstanding(states[0], id)
    ensures Get(states[|steps|].jobs, id).status == COMPLETE <==> RepliesIn(steps, id) == Outstanding(states[0], id)
  {
    RepliesGrow(states, steps, id, |steps|);
    assert steps[..|steps|] == steps;
    ReachableInv(states[0]);
    RunKeeps(states, steps, |steps|);
    OutstandingIs(states[0], id);
    OutstandingIs(states[|steps|], id);
  }

  /** The job has had n replies since s. */
  predicate AnsweredSince(s: State, s': State, id: int, n: nat)
    requires Has(s.jobs, id)
  {
    && Assigned(s', id) && Get(s'.jobs, id).clients == Get(s.jobs, id).clients
    && |RepliesTo(s', id)| == |RepliesTo(s, id)| + n
  }

  lemma RunReplies(states: seq<State>, steps: seq<Step>, id: int, k: nat)
    requires IsRun(states, steps) && Reachable(states[0]) && k < |steps| && Assigned(states[k], id)
    ensures AnsweredSince(states[k], states[k + 1], id, if IsReplyTo(steps[k], id) then 1 else 0)
  {
    ReachableInv(states[0]);
    RunKeeps(states, steps, k);
    assert Follows(states[k], steps[k], states[k + 1]);
    StepReplies(states[k], steps[k], states[k + 1], id);
  }

  lemma {:induction false} RepliesGrow(states: seq<State>, steps: seq<Step>, id: int, k: nat)
    requires IsRun(states, steps) && Reachable(states[0]) && Assigned(states[0], id) && k <= |steps|
    ensures AnsweredSince(states[0], states[k], id, RepliesIn(steps[..k], id))
  {
    if k > 0 {
      RepliesGrow(states, steps, id, k - 1);
      RunReplies(states, steps, id, k - 1);
      assert steps[..k][..k - 1] == steps[..k - 1];
    }
  }

  lemma SomeoneBusy(s: State, id: int) returns (i: nat)
    requires Outstanding(s, id) > 0
    ensures i < |s.slots| && BusyOn(s.slots[i], id)
  {
    if forall k :: 0 <= k < |s.slots| ==> OneBusyOn(id)(s.slots[k]) == 0 {
      SumAllZero(OneBusyOn(id), s.slots);
    }
    i :| i < |s.slots| && OneBusyOn(id)(s.slots[i]) != 0;
  }

  /** And the replies it waits for can always come: from every reachable state some run of
      that many replies, and nothing else, completes the job. */
  lemma CanComplete(s: State, id: int) returns (states: seq<State>, steps: seq<Step>)
    requires Reachable(s) && Assigned(s, id)
    ensures IsRun(states, steps) && states[0] == s && |steps| == Outstanding(s, id)
    ensures forall k :: 0 <= k < |steps| ==> IsReplyTo(steps[k], id)
    ensures Has(states[|steps|].jobs, id) && Get(states[|steps|].jobs, id).status == COMPLETE
  {
    ReachableInv(s);
    states, steps := ReplyAll(s, id, Outstanding(s, id));
    OnlyReplies(steps, id);
    CompletesAfterOutstanding(states, steps, id);
  }

  lemma {:induction false} OnlyReplies(steps: seq<Step>, id: int)
    requires forall k :: 0 <= k < |steps| ==> IsReplyTo(steps[k], id)
    ensures RepliesIn(steps, id) == |steps|
  {
    if steps != [] {
      OnlyReplies(steps[..|steps| - 1], id);
    }
  }

  lemma NextReply(s: State, id: int) returns (a: Step, s': State)
    requires Inv(s) && Assigned(s, id) && Outstanding(s, id) > 0
    ensures Follows(s, a, s') && IsReplyTo(a, id)
    ensures Inv(s') && Assigned(s', id) && Outstanding(s', id) == Outstanding(s, id) - 1
  {
    var i := SomeoneBusy(s, id);
    var value := BusyReply(s, i);
    a := Reply(s.slots[i].fd, id, value);
    s' := Next(s, a);
    StepReplies(s, a, s', id);
    NextKeeps(s, a);
    OutstandingIs(s, id);
    OutstandingIs(s', id);
  }

  /** A run from s of replies to the job and nothing else. */
  ghost predicate ReplyRun(s: State, id: int, states: seq<State>, steps: seq<Step>) {
    && IsRun(states, steps) && states[0] == s
    && forall k :: 0 <= k < |steps| ==> IsReplyTo(steps[k], id)
  }

  lemma EmptyRun(s: State, id: int)
    ensures ReplyRun(s, id, [s], [])
  {
  }

  lemma LongerRun(s: State, a: Step, s': State, id: int, states: seq<State>, steps: seq<Step>)
    requires Follows(s, a, s') && IsReplyTo(a, id) && ReplyRun(s', id, states, steps)
    ensures ReplyRun(s, id, [s] + states, [a] + steps)
  {
    forall k | 0 <= k < |steps| + 1 ensures Follows(([s] + states)[k], ([a] + steps)[k], ([s] + states)[k + 1]) {
      if k > 0 {
        assert Follows(states[k - 1], steps[k - 1], states[k - 1 + 1]);
      }
    }
  }

  lemma {:induction false} ReplyAll(s: State, id: int, n: nat) returns (states: seq<State>, steps: seq<Step>)
    requires Inv(s) && Assigned(s, id) && Outstanding(s, id) == n
    ensures ReplyRun(s, id, states, steps) && |steps| == n
    decreases n
  {
    if n == 0 {
      states, steps := [s], [];
      EmptyRun(s, id);
    } else {
      var a, s' := NextReply(s, id);
      states, steps := ReplyAll(s', id, n - 1);
      LongerRun(s, a, s', id, states, steps);
      states, steps := [s] + states, [a] + steps;
    }
  }
}
