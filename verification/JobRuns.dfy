/** What a run of the protocol has done, told from its steps alone: job number n is the n-th
    that was started, its record and its data set are those of that start, its replies
    are those that came, and its result is the answer to what was asked. */
module JobRuns {
  import opened JobTables
  import opened JobProtocol
  import opened JobTheorems

  // ---- Each step, field by field ----

  lemma RegisterStep(s: State, fd: nat, gs: seq<int>)
    requires Enabled(s, Register(fd, gs))
    ensures var s' := Next(s, Register(fd, gs));
            && s' == s.(groups := s'.groups, slots := s'.slots) && Sized(s')
            && (forall g :: 0 <= g < NUMBER_OF_GROUPS ==>
                  var was := s.groups[g];
                  s'.groups[g] == if g in gs then Group(was.status, was.jobId, [fd] + was.members) else was)
            && (forall i :: 0 <= i < MAX_NUMBER_OF_CLIENTS ==>
                  s'.slots[i] == if i == HashFunc(fd) then Slot(fd, s.slots[i].status, s.slots[i].jobId, gs)
                                 else s.slots[i])
  {
    forall g | 0 <= g < NUMBER_OF_GROUPS
      ensures var was := s.groups[g];
              AddToGroups(s.groups, fd, gs)[g]
                == if g in gs then Group(was.status, was.jobId, [fd] + was.members) else was
    {
      AddToGroupsAt(s.groups, fd, gs, g);
    }
  }

  lemma StartJobStep(s: State, operation: int, lines: seq<int>)
    requires Inv(s) && Enabled(s, StartJob(operation, lines))
    ensures var s', id := Next(s, StartJob(operation, lines)), s.lastId + 1;
            && s'.lastId == id && !Has(s.jobs, id) && Has(s'.jobs, id)
            && Get(s'.jobs, id) == Job(id, operation, 0, 0, NOT_STARTED, -1)
            && s'.data == s.data[id := lines]
            && s'.slots == s.slots && s'.results == s.results && s'.shares == s.shares
  {
    IdsFresh(s, s.lastId + 1);
    AddThenGet(s.jobs, s.lastId + 1, operation, s.lastId + 1);
  }

  /** The group that is taken is the first that is free and has a member. */
  lemma StartJobTakes(s: State, operation: int, lines: seq<int>) returns (g: nat)
    requires Enabled(s, StartJob(operation, lines))
    ensures g < NUMBER_OF_GROUPS && s.groups[g].status == FREE && s.groups[g].members != []
    ensures forall h :: 0 <= h < g ==> s.groups[h].status == BUSY || s.groups[h].members == []
    ensures Next(s, StartJob(operation, lines)).groups == s.groups[g := Group(BUSY, s.lastId + 1, s.groups[g].members)]
  {
    g := FindFreeGroup(s.groups, 0);
  }

  lemma AssignStep(s: State, g: nat)
    requires Inv(s) && Enabled(s, Assign(g))
    ensures var s', id := Next(s, Assign(g)), s.groups[g].jobId;
            var job, chosen := Get(s.jobs, id), FreeMembers(s.slots, s.groups[g].members);
            && Has(s'.jobs, id) && Get(s'.jobs, id) == Job(id, job.operation, g, |chosen|, IN_PROGRESS, job.result)
            && s' == s.(slots := s'.slots, jobs := s'.jobs, shares := s'.shares)
            && (forall i :: 0 <= i < MAX_NUMBER_OF_CLIENTS ==>
                  var was := s.slots[i];
                  s'.slots[i] == if was.fd in s.groups[g].members && was.fd >= 0 && was.status == FREE
                                 then Slot(was.fd, BUSY, id, was.joined) else was)
  {
    AssignLookups(s, g, s.groups[g].jobId);
    SelectThenMark(s.slots, s.groups[g].members, s.groups[g].jobId);
  }

  /** The i-th free client of the group is given the i-th floor(L / s) lines. */
  lemma AssignShares(s: State, g: nat, i: nat)
    requires Enabled(s, Assign(g)) && i < |FreeMembers(s.slots, s.groups[g].members)|
    ensures var s', id := Next(s, Assign(g)), s.groups[g].jobId;
            var chosen, lines := FreeMembers(s.slots, s.groups[g].members), s.data[id];
            var q := |lines| / |chosen|;
            && 0 <= i * q <= (i + 1) * q <= |lines|
            && id in s'.shares && |s'.shares[id]| == |chosen|
            && s'.shares[id][i] == Share(chosen[i], lines[i * q..(i + 1) * q])
            && s'.shares == s.shares[id := s'.shares[id]]
  {
    QuotaFits(s.data[s.groups[g].jobId], |FreeMembers(s.slots, s.groups[g].members)|, i);
  }

  lemma ReplyStep(s: State, fd: nat, id: int, value: int)
    requires Inv(s) && Enabled(s, Reply(fd, id, value))
    ensures var s', i := Next(s, Reply(fd, id, value)), HashFunc(fd);
            && s'.results == s.results[id := RepliesTo(s, id) + [value]]
            && s'.slots == s.slots[i := Slot(fd, FREE, id, s.slots[i].joined)]
            && s' == s.(results := s'.results, slots := s'.slots, groups := s'.groups, jobs := s'.jobs)
  {
    ReplyLookups(s, fd, id, value);
  }

  // ---- Runs ----

  /** The starts of a run, in order. */
  function Starts(steps: seq<Step>): (starts: seq<Step>)
    ensures forall k :: 0 <= k < |starts| ==> starts[k].StartJob?
  {
    if steps == [] then []
    else
      var last := steps[|steps| - 1];
      Starts(steps[..|steps| - 1]) + if last.StartJob? then [last] else []
  }

  /** The values of the replies to a job, in order. */
  function RepliesOf(steps: seq<Step>, id: int): seq<int> {
    if steps == [] then []
    else
      var last := steps[|steps| - 1];
      RepliesOf(steps[..|steps| - 1], id) + if last.Reply? && last.job == id then [last.value] else []
  }

  /** The job's record, data set and replies are those of these starts and replies. */
  predicate Told(s: State, starts: seq<Step>, replies: seq<int>, id: int)
    requires forall k :: 0 <= k < |starts| ==> starts[k].StartJob?
  {
    && s.lastId == |starts| && RepliesTo(s, id) == replies
    && (Has(s.jobs, id) <==> 1 <= id <= |starts|)
    && (Has(s.jobs, id) ==>
          Get(s.jobs, id).operation == starts[id - 1].operation && id in s.data && s.data[id] == starts[id - 1].lines)
  }

  lemma TellStart(s: State, operation: int, lines: seq<int>, starts: seq<Step>, replies: seq<int>, id: int)
    requires Inv(s) && Enabled(s, StartJob(operation, lines))
    requires (forall k :: 0 <= k < |starts| ==> starts[k].StartJob?) && Told(s, starts, replies, id)
    ensures Told(Next(s, StartJob(operation, lines)), starts + [StartJob(operation, lines)], replies, id)
  {
    StartJobStep(s, operation, lines);
    AddThenGet(s.jobs, s.lastId + 1, operation, id);
  }

  lemma TellReply(s: State, fd: nat, job: int, value: int, starts: seq<Step>, replies: seq<int>, id: int)
    requires Inv(s) && Enabled(s, Reply(fd, job, value))
    requires (forall k :: 0 <= k < |starts| ==> starts[k].StartJob?) && Told(s, starts, replies, id)
    ensures Told(Next(s, Reply(fd, job, value)), starts, replies + if job == id then [value] else [], id)
  {
    ReplyStep(s, fd, job, value);
    ReplyLookups(s, fd, job, value);
    ReplyCompletesLast(s, fd, job, value);
  }

  lemma TellOther(s: State, a: Step, starts: seq<Step>, replies: seq<int>, id: int)
    requires Inv(s) && Enabled(s, a) && !a.StartJob? && !a.Reply?
    requires (forall k :: 0 <= k < |starts| ==> starts[k].StartJob?) && Told(s, starts, replies, id)
    ensures Told(Next(s, a), starts, replies, id)
  {
    match a
    case Register(_, _) =>
    case Assign(g) => AssignLookups(s, g, id);
  }

  lemma TellStep(s: State, a: Step, s': State, starts: seq<Step>, replies: seq<int>, id: int)
    requires Inv(s) && Follows(s, a, s')
    requires (forall k :: 0 <= k < |starts| ==> starts[k].StartJob?) && Told(s, starts, replies, id)
    ensures Told(s', starts + if a.StartJob? then [a] else [],
                 replies + if a.Reply? && a.job == id then [a.value] else [], id)
  {
    match a
    case StartJob(operation, lines) => TellStart(s, operation, lines, starts, replies, id);
    case Reply(fd, job, value) => TellReply(s, fd, job, value, starts, replies, id);
    case _ => TellOther(s, a, starts, replies, id);
  }

  lemma OneMoreStep(steps: seq<Step>, k: nat, id: int)
    requires k < |steps|
    ensures Starts(steps[..k + 1]) == Starts(steps[..k]) + if steps[k].StartJob? then [steps[k]] else []
    ensures RepliesOf(steps[..k + 1], id)
              == RepliesOf(steps[..k], id) + if steps[k].Reply? && steps[k].job == id then [steps[k].value] else []
  {
    assert steps[..k + 1][..k] == steps[..k];
  }

  lemma TellNext(states: seq<State>, steps: seq<Step>, k: nat, id: int)
    requires IsRun(states, steps) && Reachable(states[0]) && k < |steps|
    requires Told(states[k], Starts(steps[..k]), RepliesOf(steps[..k], id), id)
    ensures Told(states[k + 1], Starts(steps[..k + 1]), RepliesOf(steps[..k + 1], id), id)
  {
    ReachableInv(states[0]);
    RunKeeps(states, steps, k);
    assert Follows(states[k], steps[k], states[k + 1]);
    OneMoreStep(steps, k, id);
    TellStep(states[k], steps[k], states[k + 1], Starts(steps[..k]), RepliesOf(steps[..k], id), id);
  }

  lemma {:induction false} TellTo(states: seq<State>, steps: seq<Step>, k: nat, id: int)
    requires IsRun(states, steps) && Reachable(states[0]) && Init(states[0]) && k <= |steps|
    ensures Told(states[k], Starts(steps[..k]), RepliesOf(steps[..k], id), id)
  {
    if k > 0 {
      TellTo(states, steps, k - 1, id);
      TellNext(states, steps, k - 1, id);
    }
  }

  /** In every run from the start: job number id is listed if and only if that many jobs have
      been started, with the operation and the data set of the id-th start; and its file
      of results holds the values of the replies to it, in the order in which they came. */
  lemma JobIsAsStarted(states: seq<State>, steps: seq<Step>, id: int)
    requires IsRun(states, steps) && Init(states[0])
    ensures var s, starts := states[|steps|], Starts(steps);
            && s.lastId == |starts| && RepliesTo(s, id) == RepliesOf(steps, id)
            && (Has(s.jobs, id) <==> 1 <= id <= |starts|)
            && (Has(s.jobs, id) ==>
                  && Get(s.jobs, id).operation == starts[id - 1].operation
                  && id in s.data && s.data[id] == starts[id - 1].lines)
  {
    assert IsRun([states[0]], []) && RunTo([states[0]], [], states[0]);
    TellTo(states, steps, |steps|, id);
    assert steps[..|steps|] == steps;
  }

  /** Of the first s * floor(L / s) lines that the id-th start was given, where s clients
      were assigned, the result of the completed job is one, and none is lower if the
      start asked for the minimum, none higher if it asked for the maximum; s is the number
      of replies that came. If s divides L these are all its lines. */
  lemma AnswerToStart(states: seq<State>, steps: seq<Step>, id: int)
    requires IsRun(states, steps) && Init(states[0])
    requires Has(states[|steps|].jobs, id) && Get(states[|steps|].jobs, id).status == COMPLETE
    ensures 1 <= id <= |Starts(steps)| && |RepliesOf(steps, id)| > 0
    ensures var start, clients := Starts(steps)[id - 1], |RepliesOf(steps, id)|;
            var result := Get(states[|steps|].jobs, id).result;
            var covered := clients * (|start.lines| / clients);
            && 0 < covered <= |start.lines| && result in start.lines[..covered]
            && (start.operation == 1 ==> forall x :: x in start.lines[..covered] ==> result <= x)
            && (start.operation == 2 ==> forall x :: x in start.lines[..covered] ==> result >= x)
            && (|start.lines| % clients == 0 ==> start.lines[..covered] == start.lines)
  {
    var s := states[|steps|];
    JobIsAsStarted(states, steps, id);
    assert RunTo(states, steps, s);
    FinalAnswer(s, id);
    ReplyConservation(s, id);
  }

  // ---- A whole job ----

  /** The tables as they are initialised. */
  function Fresh(): State {
    State(seq(NUMBER_OF_GROUPS, _ => Group(FREE, -1, [])), seq(MAX_NUMBER_OF_CLIENTS, _ => Slot(-1, FREE, 0, [])),
          [], 0, map[], map[], map[], map[])
  }

  lemma Registered(fd: nat, g: nat) returns (s: State)
    requires g < NUMBER_OF_GROUPS
    ensures Follows(Fresh(), Register(fd, [g]), s) && Inv(s) && s.lastId == 0 && s.jobs == []
    ensures s.groups == Fresh().groups[g := Group(FREE, -1, [fd])]
    ensures s.slots == Fresh().slots[HashFunc(fd) := Slot(fd, FREE, 0, [g])]
  {
    var s0, gs := Fresh(), [g];
    assert RunTo([s0], [], s0);
    ReachableInv(s0);
    assert Enabled(s0, Register(fd, gs));
    RegisterStep(s0, fd, gs);
    NextKeeps(s0, Register(fd, gs));
    s := Next(s0, Register(fd, gs));
    assert [fd] + [] == [fd];
    forall h | 0 <= h < NUMBER_OF_GROUPS ensures s.groups[h] == Fresh().groups[g := Group(FREE, -1, [fd])][h] {
      assert h in gs <==> h == g;
    }
  }

  lemma StartedFor(s: State, fd: nat, g: nat, operation: int, lines: seq<int>) returns (s': State)
    requires Inv(s) && s.lastId == 0 && s.jobs == [] && operation in {JOB_MIN, JOB_MAX} && g < NUMBER_OF_GROUPS
    requires s.groups == Fresh().groups[g := Group(FREE, -1, [fd])]
    ensures Follows(s, StartJob(operation, lines), s') && Inv(s')
    ensures s'.groups[g] == Group(BUSY, 1, [fd]) && s'.slots == s.slots
    ensures Has(s'.jobs, 1) && Get(s'.jobs, 1).status == NOT_STARTED && 1 in s'.data && s'.data[1] == lines
  {
    assert s.groups[g].members != [];
    StartJobStep(s, operation, lines);
    var h := StartJobTakes(s, operation, lines);
    NextKeeps(s, StartJob(operation, lines));
    s' := Next(s, StartJob(operation, lines));
  }

  lemma AssignedTo(s: State, fd: nat, g: nat, lines: seq<int>) returns (s': State)
    requires Inv(s) && g < NUMBER_OF_GROUPS && s.groups[g] == Group(BUSY, 1, [fd]) && lines != []
    requires s.slots[HashFunc(fd)].fd == fd && s.slots[HashFunc(fd)].status == FREE
    requires Has(s.jobs, 1) && Get(s.jobs, 1).status == NOT_STARTED && 1 in s.data && s.data[1] == lines
    ensures Follows(s, Assign(g), s') && Inv(s') && Has(s'.jobs, 1) && Get(s'.jobs, 1).status == IN_PROGRESS
    ensures s'.slots[HashFunc(fd)].fd == fd && s'.slots[HashFunc(fd)].status == BUSY
    ensures s'.slots[HashFunc(fd)].jobId == 1
    ensures Outstanding(s', 1) == 1
  {
    FreeMembersInOrder(s.slots, [], []);
    assert FreeMembers(s.slots, [fd]) == [fd];
    AssignStep(s, g);
    NextKeeps(s, Assign(g));
    s' := Next(s, Assign(g));
    assert Accounted(s, 1) && Accounted(s', 1);
  }

  lemma RepliedBy(s: State, fd: nat) returns (s': State, value: int)
    requires Inv(s) && Has(s.jobs, 1) && Get(s.jobs, 1).status == IN_PROGRESS && Outstanding(s, 1) == 1
    requires s.slots[HashFunc(fd)].fd == fd && s.slots[HashFunc(fd)].status == BUSY && s.slots[HashFunc(fd)].jobId == 1
    ensures Follows(s, Reply(fd, 1, value), s')
    ensures Has(s'.jobs, 1) && Get(s'.jobs, 1).status == COMPLETE
  {
    value := BusyReply(s, HashFunc(fd));
    ReplyLookups(s, fd, 1, value);
    ReplyCompletesLast(s, fd, 1, value);
    s' := Next(s, Reply(fd, 1, value));
  }

  lemma OneClientRun(fd: nat, g: nat, operation: int, lines: seq<int>) returns (states: seq<State>, steps: seq<Step>)
    requires g < NUMBER_OF_GROUPS && operation in {JOB_MIN, JOB_MAX} && lines != []
    ensures IsRun(states, steps) && states[0] == Fresh() && |steps| == 4
    ensures Starts(steps) == [StartJob(operation, lines)] && |RepliesOf(steps, 1)| == 1
    ensures Has(states[4].jobs, 1) && Get(states[4].jobs, 1).status == COMPLETE
  {
    var s1 := Registered(fd, g);
    var s2 := StartedFor(s1, fd, g, operation, lines);
    var s3 := AssignedTo(s2, fd, g, lines);
    var s4, value := RepliedBy(s3, fd);
    var start, reply := StartJob(operation, lines), Reply(fd, 1, value);
    states, steps := FourSteps(Fresh(), Register(fd, [g]), s1, start, s2, Assign(g), s3, reply, s4);
    FourCount(Register(fd, [g]), start, Assign(g), reply);
  }

  /** The smallest life of a job, for every client, group, operation and data set that is not
      empty: the client registers with the group, the job is started and assigned, the client
      replies, and the result is the minimum or maximum of the data set. */
  lemma WholeJob(fd: nat, g: nat, operation: int, lines: seq<int>) returns (states: seq<State>, steps: seq<Step>)
    requires g < NUMBER_OF_GROUPS && operation in {JOB_MIN, JOB_MAX} && lines != []
    ensures IsRun(states, steps) && Init(states[0]) && |steps| == 4
    ensures Has(states[4].jobs, 1) && Get(states[4].jobs, 1).status == COMPLETE
    ensures Get(states[4].jobs, 1).result in lines
    ensures operation == 1 ==> forall x :: x in lines ==> Get(states[4].jobs, 1).result <= x
    ensures operation == 2 ==> forall x :: x in lines ==> Get(states[4].jobs, 1).result >= x
  {
    states, steps := OneClientRun(fd, g, operation, lines);
    AnswerToStart(states, steps, 1);
  }

  lemma FourSteps(s0: State, a: Step, s1: State, b: Step, s2: State, c: Step, s3: State, d: Step, s4: State)
    returns (states: seq<State>, steps: seq<Step>)
    requires Follows(s0, a, s1) && Follows(s1, b, s2) && Follows(s2, c, s3) && Follows(s3, d, s4)
    ensures states == [s0, s1, s2, s3, s4] && steps == [a, b, c, d] && IsRun(states, steps)
  {
    states, steps := [s0, s1, s2, s3, s4], [a, b, c, d];
  }

  lemma FourCount(a: Step, b: Step, c: Step, d: Step)
    requires a.Register? && b.StartJob? && c.Assign? && d.Reply? && d.job == 1
    ensures Starts([a, b, c, d]) == [b] && RepliesOf([a, b, c, d], 1) == [d.value]
  {
    var steps := [a, b, c, d];
    OneMoreStep(steps, 3, 1);
    OneMoreStep(steps, 2, 1);
    OneMoreStep(steps, 1, 1);
    OneMoreStep(steps, 0, 1);
    assert steps[..4] == steps && steps[..0] == [];
  }
}
