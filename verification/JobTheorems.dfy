/** What the job protocol guarantees in every reachable state and at every step. */
module JobTheorems {
  import opened Sums
  import opened JobTables
  import opened JobProtocol

  /** For each job in progress, the replies recorded and the clients busy on it add up to
      the number of clients it was assigned; before that and after it nobody is busy. */
  lemma ReplyConservation(s: State, id: int)
    requires Reachable(s) && Has(s.jobs, id)
    ensures var job, out := Get(s.jobs, id), Outstanding(s, id);
            && (job.status == NOT_STARTED ==> |RepliesTo(s, id)| == 0 && out == 0)
            && (job.status == IN_PROGRESS ==> |RepliesTo(s, id)| + out == job.clients && out > 0)
            && (job.status == COMPLETE ==> |RepliesTo(s, id)| == job.clients && out == 0)
  {
    ReachableInv(s);
    assert Accounted(s, id);
  }

  /** A job is completed by one step only: the reply that is its last outstanding one. */
  lemma CompletesOnLastReply(s: State, a: Step, id: int)
    requires Reachable(s) && Enabled(s, a) && Has(s.jobs, id)
    ensures Has(Next(s, a).jobs, id)
    ensures Get(s.jobs, id).status != COMPLETE ==>
              (Get(Next(s, a).jobs, id).status == COMPLETE <==> a.Reply? && a.job == id && Outstanding(s, id) == 1)
    ensures Get(s.jobs, id).status == COMPLETE ==> Get(Next(s, a).jobs, id) == Get(s.jobs, id)
  {
    ReachableInv(s);
    match a
    case Register(_, _) =>
    case StartJob(operation, lines) => StartJobLookups(s, operation, lines, id);
    case Assign(g) => AssignLookups(s, g, id);
    case Reply(fd, job, value) =>
      ReplyLookups(s, fd, job, value);
      ReplyCompletesLast(s, fd, job, value);
      assert Accounted(s, job);
  }

  /** A job's record only moves forward, keeps its id and operation, and no step changes the
      record of a job it is not about. */
  lemma RecordsMoveForward(s: State, a: Step, id: int)
    requires Reachable(s) && Enabled(s, a) && Has(s.jobs, id)
    ensures var s' := Next(s, a);
            && Has(s'.jobs, id)
            && (var was, now := Get(s.jobs, id), Get(s'.jobs, id);
                && now.id == was.id && now.operation == was.operation
                && (now == was
                    || (was.status == NOT_STARTED && now.status == IN_PROGRESS
                        && a.Assign? && s.groups[a.g].jobId == id)
                    || (was.status == IN_PROGRESS && now.status == COMPLETE && a.Reply? && a.job == id)))
  {
    ReachableInv(s);
    match a
    case Register(_, _) =>
    case StartJob(operation, lines) => StartJobLookups(s, operation, lines, id);
    case Assign(g) => AssignLookups(s, g, id);
    case Reply(fd, job, value) =>
      ReplyLookups(s, fd, job, value);
      ReplyCompletesLast(s, fd, job, value);
  }

  /** The ids in the job list are positive and strictly decrease from the head, so each
      job has one record. */
  lemma IdsDecrease(s: State)
    requires Reachable(s)
    ensures Decreasing(s.jobs)
    ensures forall k :: 0 <= k < |s.jobs| ==> 1 <= s.jobs[k].id <= s.lastId && Find(s.jobs, s.jobs[k].id) == k
  {
    ReachableInv(s);
    forall k | 0 <= k < |s.jobs| ensures Find(s.jobs, s.jobs[k].id) == k {
      FindUnique(s.jobs, s.jobs[k].id, k);
    }
  }

  /** Unfinished jobs have distinct groups, a group is busy exactly when its job_id names an
      unfinished job, and a client is busy only on a job in progress, so no client works
      on two jobs. */
  lemma ExclusiveAssignment(s: State)
    requires Reachable(s)
    ensures Sized(s)
    ensures forall id :: Has(s.jobs, id) && Get(s.jobs, id).status != COMPLETE ==>
              exists g :: 0 <= g < NUMBER_OF_GROUPS && s.groups[g].jobId == id
    ensures forall g, h :: 0 <= g < h < NUMBER_OF_GROUPS && s.groups[g].jobId != -1 ==>
              s.groups[g].jobId != s.groups[h].jobId
    ensures forall g :: 0 <= g < NUMBER_OF_GROUPS ==>
              (s.groups[g].status == BUSY <==>
                 Has(s.jobs, s.groups[g].jobId) && Get(s.jobs, s.groups[g].jobId).status != COMPLETE)
    ensures forall i :: 0 <= i < MAX_NUMBER_OF_CLIENTS && s.slots[i].status == BUSY ==>
              Has(s.jobs, s.slots[i].jobId) && Get(s.jobs, s.slots[i].jobId).status == IN_PROGRESS
  {
    ReachableInv(s);
    forall id | Has(s.jobs, id) && Get(s.jobs, id).status != COMPLETE
      ensures exists g :: 0 <= g < NUMBER_OF_GROUPS && s.groups[g].jobId == id
    {
      assert s.groups[s.home[id]].jobId == id;
    }
  }

  /** A reply that completes its job passes the job-id guards and frees the group the job
      took, that group only, and the replying client, that client only. */
  lemma CompletionFreesItsGroup(s: State, fd: nat, id: int, value: int)
    requires Reachable(s) && Enabled(s, Reply(fd, id, value)) && Outstanding(s, id) == 1
    ensures var s', g := Next(s, Reply(fd, id, value)), Get(s.jobs, id).group;
            && s.groups[g].jobId == id && s.groups[g].status == BUSY
            && s'.groups == s.groups[g := s.groups[g].(status := FREE)]
            && s'.slots == s.slots[HashFunc(fd) := s.slots[HashFunc(fd)].(status := FREE)]
  {
    ReachableInv(s);
    ReplyLookups(s, fd, id, value);
    ReplyCompletesLast(s, fd, id, value);
  }

  /** A busy client can always reply, with the extreme of the share it was given: the
      lookups that Enabled asks for never fail. */
  lemma BusyClientCanReply(s: State, i: nat)
    requires Reachable(s) && i < MAX_NUMBER_OF_CLIENTS == |s.slots| && s.slots[i].status == BUSY
    ensures exists value :: Enabled(s, Reply(s.slots[i].fd, s.slots[i].jobId, value))
  {
    ReachableInv(s);
    var value := BusyReply(s, i);
  }

  lemma BusyReply(s: State, i: nat) returns (value: int)
    requires Inv(s) && i < MAX_NUMBER_OF_CLIENTS && s.slots[i].status == BUSY
    ensures Enabled(s, Reply(s.slots[i].fd, s.slots[i].jobId, value))
  {
    var id, fd := s.slots[i].jobId, s.slots[i].fd;
    assert Has(s.jobs, id) && Accounted(s, id);
    assert BusyOn(s.slots[i], id);
    var k :| 0 <= k < |s.shares[id]| && s.shares[id][k].fd == fd;
    assert StretchOf(s.shares[id][k].lines, s.data[id], Get(s.jobs, id).clients, k);
    value := Extreme(Get(s.jobs, id).operation, s.shares[id][k].lines);
    assert HasShare(s, id, fd, value);
    assert Enabled(s, Reply(fd, id, value));
  }

  // ---- The answer ----

  function Lines(shares: seq<Share>): seq<int> {
    if shares == [] then [] else shares[0].lines + Lines(shares[1..])
  }

  lemma {:induction false} LinesAppend(shares: seq<Share>, last: Share)
    ensures Lines(shares + [last]) == Lines(shares) + last.lines
  {
    if shares == [] {
      assert shares + [last] == [last];
      assert [last][1..] == [];
    } else {
      assert (shares + [last])[1..] == shares[1..] + [last];
      LinesAppend(shares[1..], last);
    }
  }

  lemma {:induction false} SharesPrefix(shares: seq<Share>, data: seq<int>, m: nat)
    requires m <= |shares| && 0 < |shares| <= |data|
    requires forall k :: 0 <= k < |shares| ==> StretchOf(shares[k].lines, data, |shares|, k)
    ensures m * Quota(data, |shares|) <= |data|
    ensures Lines(shares[..m]) == data[..m * Quota(data, |shares|)]
  {
    if m > 0 {
      SharesPrefix(shares, data, m - 1);
      QuotaFits(data, |shares|, m - 1);
      var q := Quota(data, |shares|);
      assert shares[..m] == shares[..m - 1] + [shares[m - 1]];
      LinesAppend(shares[..m - 1], shares[m - 1]);
      assert StretchOf(shares[m - 1].lines, data, |shares|, m - 1);
      assert data[..(m - 1) * q] + data[(m - 1) * q..m * q] == data[..m * q];
    } else {
      assert shares[..0] == [];
    }
  }

  /** The shares of a job, one after the other, are exactly the first s * floor(L / s) lines
      of its data set of L lines, where s is the number of clients assigned. */
  lemma SharesCover(s: State, id: int)
    requires Reachable(s) && Has(s.jobs, id) && Get(s.jobs, id).status != NOT_STARTED
    ensures id in s.shares && id in s.data && |s.shares[id]| == Get(s.jobs, id).clients > 0
    ensures var n := |s.shares[id]|; n * Quota(s.data[id], n) <= |s.data[id]|
    ensures var n := |s.shares[id]|; Lines(s.shares[id]) == s.data[id][..n * Quota(s.data[id], n)]
    ensures forall k, j :: 0 <= k < j < |s.shares[id]| ==> s.shares[id][k].fd != s.shares[id][j].fd
  {
    ReachableInv(s);
    assert Accounted(s, id);
    SharesPrefix(s.shares[id], s.data[id], |s.shares[id]|);
    assert s.shares[id][..|s.shares[id]|] == s.shares[id];
  }

  lemma {:induction false} LinesOf(shares: seq<Share>, x: int)
    ensures x in Lines(shares) <==> exists k :: 0 <= k < |shares| && x in shares[k].lines
  {
    if shares != [] {
      LinesOf(shares[1..], x);
      if x in shares[0].lines {
      } else if k :| 0 <= k < |shares| && x in shares[k].lines {
        assert shares[1..][k - 1] == shares[k];
      }
      if k :| 0 <= k < |shares[1..]| && x in shares[1..][k].lines {
        assert shares[k + 1] == shares[1..][k];
      }
    }
  }

  /** Once a job is complete every share's value has been recorded, so the extreme of the
      replies, in whatever order they came, is the extreme of all the lines handed out. */
  lemma ExtremeOfReplies(s: State, id: int)
    requires Inv(s) && Has(s.jobs, id) && Get(s.jobs, id).status == COMPLETE
    ensures id in s.shares && Lines(s.shares[id]) != []
    ensures Get(s.jobs, id).result == Extreme(Get(s.jobs, id).operation, Lines(s.shares[id]))
  {
    var op, shares, replies := Get(s.jobs, id).operation, s.shares[id], RepliesTo(s, id);
    assert Accounted(s, id);
    var e := Extreme(op, replies);
    var k :| 0 <= k < |shares| && IsAnswer(op, shares[k], e);
    LinesOf(shares, e);
    forall x | x in Lines(shares) ensures Better(op, e, x) {
      LinesOf(shares, x);
      var j :| 0 <= j < |shares| && x in shares[j].lines;
      if WorksOn(s.slots, shares[j].fd, id) {
        SumMember(OneBusyOn(id), s.slots, HashFunc(shares[j].fd));
      }
      assert Extreme(op, shares[j].lines) in replies;
    }
    ExtremeUnique(op, Lines(shares), e);
  }

  /** The number of lines that are handed out. */
  function Covered(s: State, id: int): int
    requires Has(s.jobs, id) && id in s.data && Get(s.jobs, id).clients > 0
  {
    Get(s.jobs, id).clients * (|s.data[id]| / Get(s.jobs, id).clients)
  }

  lemma AllCovered(total: nat, n: nat)
    requires n > 0
    ensures total % n == 0 ==> n * (total / n) == total
    ensures total >= n ==> 0 < n * (total / n) <= total
  {
    assert total == n * (total / n) + total % n;
  }

  /** The result of a completed job is the minimum or maximum of the first s * floor(L / s)
      lines, and of the whole data set when s divides L. */
  lemma FinalAnswer(s: State, id: int)
    requires Reachable(s) && Has(s.jobs, id) && Get(s.jobs, id).status == COMPLETE
    ensures id in s.data && Get(s.jobs, id).clients > 0
    ensures 0 < Covered(s, id) <= |s.data[id]|
    ensures Get(s.jobs, id).result == Extreme(Get(s.jobs, id).operation, s.data[id][..Covered(s, id)])
    ensures Get(s.jobs, id).result in s.data[id][..Covered(s, id)]
    ensures Get(s.jobs, id).operation == JOB_MIN ==>
              forall x :: x in s.data[id][..Covered(s, id)] ==> Get(s.jobs, id).result <= x
    ensures Get(s.jobs, id).operation == JOB_MAX ==>
              forall x :: x in s.data[id][..Covered(s, id)] ==> Get(s.jobs, id).result >= x
    ensures |s.data[id]| % Get(s.jobs, id).clients == 0 ==> s.data[id][..Covered(s, id)] == s.data[id]
  {
    SharesCover(s, id);
    ReachableInv(s);
    assert Accounted(s, id);
    ExtremeOfReplies(s, id);
    AllCovered(|s.data[id]|, Get(s.jobs, id).clients);
  }

  /** For given numbers of clients and lines, the answer is right for every data set of that
      many lines if and only if the clients divide the lines; otherwise the last lines
      are sent to nobody. */
  lemma WholeIffDivides(operation: int, clients: nat, total: nat)
    requires 0 < clients <= total && operation in {JOB_MIN, JOB_MAX}
    ensures 0 < clients * (total / clients) <= total
    ensures (forall lines: seq<int> :: |lines| == total ==>
               Extreme(operation, lines[..clients * (total / clients)]) == Extreme(operation, lines))
            <==> total % clients == 0
  {
    AllCovered(total, clients);
    var covered := clients * (total / clients);
    if total % clients == 0 {
      forall lines: seq<int> | |lines| == total
        ensures Extreme(operation, lines[..covered]) == Extreme(operation, lines)
      {
        assert lines[..covered] == lines;
      }
    } else {
      var best := if operation == JOB_MIN then -1 else 1;
      var lines := seq(total, i requires 0 <= i < total => if i < covered then 0 else best);
      assert total == covered + total % clients;
      var last := lines[total - 1];
      assert last == best && last in lines;
      ExtremeUnique(operation, lines, best);
      assert Extreme(operation, lines[..covered]) == 0;
    }
  }
}
