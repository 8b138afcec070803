/** The job protocol: clients register, a job takes a free group, its data set is split
    among the group's free clients, and each client's reply is recorded until the last
    one completes the job. Each handler is one step; the code takes no lock here. */
module JobProtocol {
  import opened Sums
  import opened JobTables

  /** Lines of a data set given to a client. */
  datatype Share = Share(fd: int, lines: seq<int>)

  /** The tables, the counter job_id and the lines of each file Result_<id>. The last three
      fields record the data set of each job, the group it took and what was handed out. */
  datatype State = State(
    groups: seq<Group>,
    slots: seq<Slot>,
    jobs: seq<Job>,
    lastId: int,
    results: map<int, seq<int>>,
    data: map<int, seq<int>>,
    home: map<int, int>,
    shares: map<int, seq<Share>>)

  datatype Step =
    | Register(fd: int, gs: seq<int>)
    | StartJob(operation: int, lines: seq<int>)
    | Assign(g: int)
    | Reply(fd: int, job: int, value: int)

  // ---- The foreign part: splitting a file and libminmax ----

  predicate Better(operation: int, a: int, b: int) {
    if operation == JOB_MIN then a <= b else a >= b
  }

  /** minimum_of_numbers or maximum_of_numbers of a file. */
  function Extreme(operation: int, xs: seq<int>): (e: int)
    requires xs != []
    ensures e in xs && forall x :: x in xs ==> Better(operation, e, x)
    ensures operation == JOB_MIN ==> forall x :: x in xs ==> e <= x
    ensures operation == JOB_MAX ==> forall x :: x in xs ==> e >= x
  {
    if |xs| == 1 then xs[0]
    else
      assert xs == [xs[0]] + xs[1..];
      var e := Extreme(operation, xs[1..]);
      if Better(operation, xs[0], e) then xs[0] else e
  }

  lemma ExtremeUnique(operation: int, xs: seq<int>, e: int)
    requires xs != [] && e in xs && forall x :: x in xs ==> Better(operation, e, x)
    ensures Extreme(operation, xs) == e
  {
  }

  /** floor(lines / size) lines for each client, in the order of the list. */
  function Quota(lines: seq<int>, size: nat): nat
    requires size > 0
  {
    |lines| / size
  }

  lemma QuotaFits(lines: seq<int>, size: nat, k: nat)
    requires 0 < size && k < size
    ensures 0 <= k * Quota(lines, size) <= (k + 1) * Quota(lines, size) <= size * Quota(lines, size) <= |lines|
    ensures |lines| >= size ==> Quota(lines, size) >= 1
  {
    var q := Quota(lines, size);
    assert (k + 1) * q == k * q + q;
    MulMonotone(k + 1, size, q);
  }

  lemma MulMonotone(a: nat, b: nat, q: nat)
    requires a <= b
    ensures a * q <= b * q
  {
  }

  function Deal(chosen: seq<int>, lines: seq<int>): (r: seq<Share>)
    requires chosen != []
    ensures |r| == |chosen|
  {
    seq(|chosen|, k requires 0 <= k < |chosen| =>
      QuotaFits(lines, |chosen|, k);
      Share(chosen[k], lines[k * Quota(lines, |chosen|)..(k + 1) * Quota(lines, |chosen|)]))
  }

  // ---- Steps ----

  function RepliesTo(s: State, id: int): seq<int> {
    if id in s.results then s.results[id] else []
  }

  predicate IsAnswer(operation: int, share: Share, value: int) {
    share.lines != [] && value == Extreme(operation, share.lines)
  }

  predicate HasShare(s: State, id: int, fd: int, value: int) {
    Has(s.jobs, id) && id in s.shares &&
    exists k :: 0 <= k < |s.shares[id]| && s.shares[id][k].fd == fd
                && IsAnswer(Get(s.jobs, id).operation, s.shares[id][k], value)
  }

  predicate Sized(s: State) {
    FullSize(s.groups) && |s.slots| == MAX_NUMBER_OF_CLIENTS
  }

  /** What the callers of the handlers see to: a client registers once, with distinct groups
      that exist; a job is started when a group is free; it is assigned when a client of
      its group is free and its data set has a line for each; and a client replies once,
      with the extreme of the lines it was given. */
  predicate Enabled(s: State, a: Step) {
    Sized(s) &&
    match a
    case Register(fd, gs) => fd >= 0 && s.slots[HashFunc(fd)].fd == -1 && InRange(gs) && Distinct(gs)
    case StartJob(operation, _) => operation in {JOB_MIN, JOB_MAX} && FindFreeGroup(s.groups, 0) != -1
    case Assign(g) =>
      && 0 <= g < NUMBER_OF_GROUPS
      && (var group := s.groups[g];
          && Has(s.jobs, group.jobId) && Get(s.jobs, group.jobId).status == NOT_STARTED
          && group.jobId in s.data
          && (var chosen := FreeMembers(s.slots, group.members);
              0 < |chosen| <= |s.data[group.jobId]|))
    case Reply(fd, job, value) =>
      && fd >= 0
      && (var slot := s.slots[HashFunc(fd)];
          slot.fd == fd && slot.status == BUSY && slot.jobId == job)
      && HasShare(s, job, fd, value)
      && 0 <= Get(s.jobs, job).group < NUMBER_OF_GROUPS
  }

  function RegisterNext(s: State, fd: nat, gs: seq<int>): State
    requires Enabled(s, Register(fd, gs))
  {
    s.(groups := AddToGroups(s.groups, fd, gs), slots := AddClient(s.slots, fd, gs).0)
  }

  function StartJobNext(s: State, operation: int, lines: seq<int>): State
    requires Enabled(s, StartJob(operation, lines))
  {
    var g, id := FindFreeGroup(s.groups, 0), s.lastId + 1;
    s.(lastId := id, jobs := AddJob(s.jobs, id, operation), groups := TakeGroup(s.groups, g, id),
       data := s.data[id := lines], home := s.home[id := g])
  }

  function AssignNext(s: State, g: nat): State
    requires Enabled(s, Assign(g))
  {
    var id, members := s.groups[g].jobId, s.groups[g].members;
    var chosen := FreeMembers(s.slots, members);
    s.(slots := MarkBusy(s.slots, members, chosen, id),
       jobs := Put(s.jobs, id, Started(Get(s.jobs, id), g, |chosen|)),
       shares := s.shares[id := Deal(chosen, s.data[id])])
  }

  function ReplyNext(s: State, fd: nat, id: int, value: int): State
    requires Enabled(s, Reply(fd, id, value))
  {
    var replies := RepliesTo(s, id) + [value];
    var job := Get(s.jobs, id);
    var recorded := s.(results := s.results[id := replies], slots := FreeSlot(s.slots, fd, id));
    if |replies| == job.clients then
      recorded.(groups := FreeGroup(s.groups, job.group, id),
                jobs := Put(s.jobs, id, Completed(job, Extreme(job.operation, replies))))
    else recorded
  }

  function Next(s: State, a: Step): State
    requires Enabled(s, a)
  {
    match a
    case Register(fd, gs) => RegisterNext(s, fd, gs)
    case StartJob(operation, lines) => StartJobNext(s, operation, lines)
    case Assign(g) => AssignNext(s, g)
    case Reply(fd, job, value) => ReplyNext(s, fd, job, value)
  }

  /** initialize_group_array and initialize_client_array on zeroed tables. */
  predicate Init(s: State) {
    && Sized(s)
    && (forall g :: 0 <= g < NUMBER_OF_GROUPS ==> s.groups[g] == Group(FREE, -1, []))
    && (forall i :: 0 <= i < MAX_NUMBER_OF_CLIENTS ==> s.slots[i] == Slot(-1, FREE, 0, []))
    && s.jobs == [] && s.lastId == 0
    && s.results == map[] && s.data == map[] && s.home == map[] && s.shares == map[]
  }

  predicate Follows(s: State, a: Step, s': State) { Enabled(s, a) && s' == Next(s, a) }

  ghost predicate IsRun(states: seq<State>, steps: seq<Step>) {
    && |states| == |steps| + 1
    && forall i :: 0 <= i < |steps| ==> Follows(states[i], steps[i], states[i + 1])
  }

  ghost predicate RunTo(states: seq<State>, steps: seq<Step>, s: State) {
    IsRun(states, steps) && Init(states[0]) && states[|steps|] == s
  }

  ghost predicate Reachable(s: State) {
    exists states, steps :: RunTo(states, steps, s)
  }

  // ---- The invariant ----

  predicate Sockets(members: seq<int>) { forall k :: 0 <= k < |members| ==> members[k] >= 0 }

  /** Lists hold registered clients, each once; slots hold the client that hashes to them. */
  ghost predicate Lists(s: State) {
    && Sized(s) && Consistent(s.slots)
    && (forall i :: 0 <= i < |s.slots| && s.slots[i].fd == -1 ==> s.slots[i].status == FREE)
    && (forall g :: 0 <= g < NUMBER_OF_GROUPS ==> Distinct(s.groups[g].members) && Sockets(s.groups[g].members))
    && (forall g, fd :: 0 <= g < NUMBER_OF_GROUPS && fd in s.groups[g].members ==>
          fd >= 0 && s.slots[HashFunc(fd)].fd == fd)
  }

  /** The job list is a map whose keys decrease from the head. */
  ghost predicate Ids(s: State) {
    && Decreasing(s.jobs) && s.lastId >= 0
    && (forall k :: 0 <= k < |s.jobs| ==> 1 <= s.jobs[k].id <= s.lastId)
    && (forall id :: id in s.results ==> Has(s.jobs, id))
  }

  /** A job belongs to the group it took: an unfinished job keeps it busy, and a busy group
      names an unfinished job. */
  ghost predicate Homes(s: State) {
    && Sized(s)
    && (forall id :: Has(s.jobs, id) ==>
          && id in s.home && 0 <= s.home[id] < NUMBER_OF_GROUPS
          && (Get(s.jobs, id).status != COMPLETE ==>
                s.groups[s.home[id]].jobId == id && s.groups[s.home[id]].status == BUSY)
          && (Get(s.jobs, id).status != NOT_STARTED ==> Get(s.jobs, id).group == s.home[id]))
    && (forall g :: 0 <= g < NUMBER_OF_GROUPS ==>
          var id := s.groups[g].jobId;
          if id == -1 then s.groups[g].status == FREE
          else Has(s.jobs, id) && id in s.home && s.home[id] == g
               && (s.groups[g].status == BUSY <==> Get(s.jobs, id).status != COMPLETE))
  }

  predicate BusyOn(slot: Slot, id: int) { slot.status == BUSY && slot.jobId == id }

  predicate WorksOn(slots: seq<Slot>, fd: nat, id: int)
    requires |slots| == MAX_NUMBER_OF_CLIENTS
  {
    slots[HashFunc(fd)].fd == fd && BusyOn(slots[HashFunc(fd)], id)
  }

  function OneBusyOn(id: int): Slot -> nat {
    (slot: Slot) => if BusyOn(slot, id) then 1 else 0
  }

  function Outstanding(s: State, id: int): nat { Sum(OneBusyOn(id), s.slots) }

  /** A busy client works on a job in progress. */
  ghost predicate Workers(s: State) {
    forall i :: 0 <= i < |s.slots| && s.slots[i].status == BUSY ==>
      Has(s.jobs, s.slots[i].jobId) && Get(s.jobs, s.slots[i].jobId).status == IN_PROGRESS
  }

  /** Replies recorded and clients still busy add up to the clients assigned. */
  predicate Conserved(s: State, id: int)
    requires Has(s.jobs, id)
  {
    var job, n, out := Get(s.jobs, id), |RepliesTo(s, id)|, Outstanding(s, id);
    match job.status
    case NOT_STARTED => n == 0 && out == 0
    case IN_PROGRESS => n + out == job.clients && out >= 1
    case COMPLETE => n == job.clients && n >= 1 && out == 0
  }

  /** The shares of a job: consecutive stretches of its data set, one for each client. */
  predicate Dealt(s: State, id: int)
    requires Has(s.jobs, id)
  {
    var n := Get(s.jobs, id).clients;
    && id in s.shares && id in s.data && 0 < n == |s.shares[id]| <= |s.data[id]|
    && (forall k :: 0 <= k < n ==> s.shares[id][k].fd >= 0)
    && (forall k, j :: 0 <= k < j < n ==> s.shares[id][k].fd != s.shares[id][j].fd)
    && (forall k :: 0 <= k < n ==> StretchOf(s.shares[id][k].lines, s.data[id], n, k))
  }

  predicate StretchOf(lines: seq<int>, data: seq<int>, n: nat, k: nat)
    requires k < n
  {
    QuotaFits(data, n, k);
    lines == data[k * Quota(data, n)..(k + 1) * Quota(data, n)] && lines != []
  }

  predicate AnswersSome(operation: int, shares: seq<Share>, value: int) {
    exists k :: 0 <= k < |shares| && IsAnswer(operation, shares[k], value)
  }

  /** Each share is still being worked on or its value is recorded, and each recorded value
      is that of a share. */
  ghost predicate Answered(s: State, id: int)
    requires Sized(s) && Has(s.jobs, id) && Dealt(s, id)
  {
    && (forall k :: 0 <= k < |s.shares[id]| ==>
          WorksOn(s.slots, s.shares[id][k].fd, id)
          || Extreme(Get(s.jobs, id).operation, s.shares[id][k].lines) in RepliesTo(s, id))
    && (forall v :: v in RepliesTo(s, id) ==> AnswersSome(Get(s.jobs, id).operation, s.shares[id], v))
    && (Get(s.jobs, id).status == COMPLETE && RepliesTo(s, id) != [] ==>
          Get(s.jobs, id).result == Extreme(Get(s.jobs, id).operation, RepliesTo(s, id)))
  }

  predicate HasShareOf(shares: seq<Share>, fd: int) {
    exists k :: 0 <= k < |shares| && shares[k].fd == fd
  }

  /** Each client busy on the job has a share of it. */
  ghost predicate Staffed(s: State, id: int)
    requires Sized(s) && id in s.shares
  {
    forall i :: 0 <= i < MAX_NUMBER_OF_CLIENTS && BusyOn(s.slots[i], id) ==> HasShareOf(s.shares[id], s.slots[i].fd)
  }

  ghost predicate Accounted(s: State, id: int)
    requires Sized(s) && Has(s.jobs, id)
  {
    && id in s.data && Conserved(s, id)
    && (Get(s.jobs, id).status != NOT_STARTED ==> Dealt(s, id) && Answered(s, id) && Staffed(s, id))
  }

  ghost predicate Tables(s: State) { Lists(s) && Ids(s) && Homes(s) && Workers(s) }

  ghost predicate Inv(s: State) {
    Tables(s) && forall id :: Has(s.jobs, id) ==> Accounted(s, id)
  }

  // ---- Changes that do not concern a job ----

  /** The job, its replies and shares are as before, and the same slots are busy on it. */
  ghost predicate Undisturbed(s: State, s': State, id: int) {
    && Sized(s) && Sized(s') && Has(s.jobs, id) && Has(s'.jobs, id) && Get(s'.jobs, id) == Get(s.jobs, id)
    && RepliesTo(s', id) == RepliesTo(s, id)
    && (id in s.shares <==> id in s'.shares) && (id in s.shares ==> s'.shares[id] == s.shares[id])
    && (id in s.data ==> id in s'.data && s'.data[id] == s.data[id])
    && (forall i :: 0 <= i < MAX_NUMBER_OF_CLIENTS ==>
          && (BusyOn(s'.slots[i], id) <==> BusyOn(s.slots[i], id))
          && (BusyOn(s.slots[i], id) ==> s'.slots[i].fd == s.slots[i].fd))
  }

  lemma UndisturbedConserved(s: State, s': State, id: int)
    requires Undisturbed(s, s', id) && Conserved(s, id)
    ensures Conserved(s', id)
  {
    SumPointwise(OneBusyOn(id), s.slots, s'.slots);
  }

  lemma UndisturbedDealt(s: State, s': State, id: int)
    requires Undisturbed(s, s', id) && Dealt(s, id)
    ensures Dealt(s', id)
  {
  }

  lemma UndisturbedWork(s: State, s': State, id: int, fd: nat)
    requires Undisturbed(s, s', id)
    ensures WorksOn(s.slots, fd, id) ==> WorksOn(s'.slots, fd, id)
  {
  }

  lemma UndisturbedAnswered(s: State, s': State, id: int)
    requires Undisturbed(s, s', id) && Dealt(s, id) && Answered(s, id)
    ensures Dealt(s', id) && Answered(s', id)
  {
    UndisturbedDealt(s, s', id);
    forall k | 0 <= k < |s'.shares[id]|
      ensures WorksOn(s'.slots, s'.shares[id][k].fd, id)
              || Extreme(Get(s'.jobs, id).operation, s'.shares[id][k].lines) in RepliesTo(s', id)
    {
      UndisturbedWork(s, s', id, s.shares[id][k].fd);
    }
  }

  lemma UndisturbedKeeps(s: State, s': State, id: int)
    requires Undisturbed(s, s', id) && Accounted(s, id)
    ensures Accounted(s', id)
  {
    UndisturbedConserved(s, s', id);
    if Get(s.jobs, id).status != NOT_STARTED {
      UndisturbedAnswered(s, s', id);
    }
  }

  lemma IdsFresh(s: State, id: int)
    requires Ids(s) && id > s.lastId
    ensures !Has(s.jobs, id) && id !in s.results
  {
  }

  // ---- Register ----

  lemma RegisterKeepsTables(s: State, fd: nat, gs: seq<int>)
    requires Inv(s) && Enabled(s, Register(fd, gs))
    ensures Tables(RegisterNext(s, fd, gs))
  {
    var s' := RegisterNext(s, fd, gs);
    forall g | 0 <= g < NUMBER_OF_GROUPS
      ensures s'.groups[g] == if g in gs then Joined(s.groups[g], fd) else s.groups[g]
      ensures fd !in s.groups[g].members
    {
      AddToGroupsAt(s.groups, fd, gs, g);
    }
  }

  lemma RegisterKeeps(s: State, fd: nat, gs: seq<int>)
    requires Inv(s) && Enabled(s, Register(fd, gs))
    ensures Inv(RegisterNext(s, fd, gs))
  {
    var s' := RegisterNext(s, fd, gs);
    RegisterKeepsTables(s, fd, gs);
    forall id | Has(s'.jobs, id) ensures Accounted(s', id) {
      UndisturbedKeeps(s, s', id);
    }
  }

  // ---- StartJob ----

  lemma StartJobLookups(s: State, operation: int, lines: seq<int>, other: int)
    requires Inv(s) && Enabled(s, StartJob(operation, lines))
    ensures var s', id := StartJobNext(s, operation, lines), s.lastId + 1;
            && !Has(s.jobs, id) && Has(s'.jobs, id) && Get(s'.jobs, id).status == NOT_STARTED
            && (other != id ==> (Has(s'.jobs, other) <==> Has(s.jobs, other)))
            && (other != id && Has(s.jobs, other) ==> Get(s'.jobs, other) == Get(s.jobs, other))
  {
    IdsFresh(s, s.lastId + 1);
    AddThenGet(s.jobs, s.lastId + 1, operation, other);
  }

  lemma StartJobKeepsIds(s: State, operation: int, lines: seq<int>)
    requires Inv(s) && Enabled(s, StartJob(operation, lines))
    ensures Ids(StartJobNext(s, operation, lines))
  {
    var s' := StartJobNext(s, operation, lines);
    assert forall k :: 0 < k < |s'.jobs| ==> s'.jobs[k] == s.jobs[k - 1];
    forall id | id in s.results ensures Has(s'.jobs, id) {
      StartJobLookups(s, operation, lines, id);
    }
  }

  /** What becomes of the jobs' records, whatever the list looks like. */
  ghost predicate OnlyPut(s: State, s': State, id: int, job: Job) {
    && Has(s'.jobs, id) && Get(s'.jobs, id) == job
    && (forall other :: other != id ==> (Has(s'.jobs, other) <==> Has(s.jobs, other)))
    && (forall other :: other != id && Has(s.jobs, other) ==> Get(s'.jobs, other) == Get(s.jobs, other))
  }

  lemma StartJobKeepsHomes(s: State, s': State, g: nat, id: int, job: Job)
    requires Homes(s) && OnlyPut(s, s', id, job) && !Has(s.jobs, id) && id != -1
    requires job.status == NOT_STARTED
    requires g < NUMBER_OF_GROUPS && s.groups[g].status == FREE
    requires s'.groups == TakeGroup(s.groups, g, id) && s'.home == s.home[id := g] && |s'.slots| == |s.slots|
    ensures Homes(s')
  {
  }

  lemma StartJobKeepsTables(s: State, operation: int, lines: seq<int>)
    requires Inv(s) && Enabled(s, StartJob(operation, lines))
    ensures Tables(StartJobNext(s, operation, lines))
  {
    var s', id, g := StartJobNext(s, operation, lines), s.lastId + 1, FindFreeGroup(s.groups, 0);
    StartJobKeepsIds(s, operation, lines);
    StartJobLookups(s, operation, lines, id);
    assert OnlyPut(s, s', id, Get(s'.jobs, id)) by {
      forall other
        ensures other != id ==> (Has(s'.jobs, other) <==> Has(s.jobs, other))
        ensures other != id && Has(s.jobs, other) ==> Get(s'.jobs, other) == Get(s.jobs, other)
      {
        StartJobLookups(s, operation, lines, other);
      }
    }
    StartJobKeepsHomes(s, s', g, id, Get(s'.jobs, id));
  }

  lemma StartJobKeeps(s: State, operation: int, lines: seq<int>)
    requires Inv(s) && Enabled(s, StartJob(operation, lines))
    ensures Inv(StartJobNext(s, operation, lines))
  {
    var s', id := StartJobNext(s, operation, lines), s.lastId + 1;
    StartJobKeepsTables(s, operation, lines);
    forall other | Has(s'.jobs, other) ensures Accounted(s', other) {
      StartJobLookups(s, operation, lines, other);
      if other != id {
        UndisturbedKeeps(s, s', other);
      } else {
        IdsFresh(s, id);
        SumAllZero(OneBusyOn(id), s.slots);
      }
    }
  }

  // ---- Assign ----

  lemma {:induction false} FreeMembersSame(slots: seq<Slot>, slots': seq<Slot>, members: seq<int>)
    requires |slots| == |slots'| == MAX_NUMBER_OF_CLIENTS
    requires forall fd :: fd in members ==> (IsFree(slots, fd) <==> IsFree(slots', fd))
    ensures FreeMembers(slots, members) == FreeMembers(slots', members)
  {
    if members != [] {
      var fd := members[0];
      assert fd in members;
      forall x | x in members[1..] ensures x in members {
      }
      FreeMembersSame(slots, slots', members[1..]);
    }
  }

  /** Marking makes as many clients busy on the job as were selected. */
  lemma {:induction false} MarkBusyCounts(slots: seq<Slot>, members: seq<int>, chosen: seq<int>, id: int)
    requires |slots| == MAX_NUMBER_OF_CLIENTS && Distinct(members)
    requires forall fd :: fd in members ==> (fd in chosen <==> IsFree(slots, fd))
    ensures Sum(OneBusyOn(id), MarkBusy(slots, members, chosen, id))
              == Sum(OneBusyOn(id), slots) + |FreeMembers(slots, members)|
    decreases members
  {
    if members != [] {
      var fd := members[0];
      assert fd in members;
      var slots' := MarkOne(slots, fd, chosen, id);
      forall x | x in members[1..] ensures x in members && x != fd {
      }
      assert forall a :: 0 <= a < |members| - 1 ==> members[1..][a] == members[a + 1];
      forall x | x in members[1..] ensures IsFree(slots, x) <==> IsFree(slots', x) {
      }
      FreeMembersSame(slots, slots', members[1..]);
      MarkBusyCounts(slots', members[1..], chosen, id);
      if fd in chosen {
        SumUpdate(OneBusyOn(id), slots, HashFunc(fd), slots'[HashFunc(fd)]);
      }
    }
  }

  lemma AssignLookups(s: State, g: nat, other: int)
    requires Inv(s) && Enabled(s, Assign(g))
    ensures var s', id := AssignNext(s, g), s.groups[g].jobId;
            && Has(s'.jobs, id)
            && Get(s'.jobs, id) == Started(Get(s.jobs, id), g, |FreeMembers(s.slots, s.groups[g].members)|)
            && (Has(s'.jobs, other) <==> Has(s.jobs, other))
            && (other != id && Has(s.jobs, other) ==> Get(s'.jobs, other) == Get(s.jobs, other))
  {
    var id := s.groups[g].jobId;
    PutGet(s.jobs, id, Started(Get(s.jobs, id), g, |FreeMembers(s.slots, s.groups[g].members)|), other);
  }

  lemma PutKeepsIds(s: State, s': State, id: int, job: Job)
    requires Ids(s) && Has(s.jobs, id) && job.id == id
    requires s'.jobs == Put(s.jobs, id, job) && s'.lastId == s.lastId
    requires forall x :: x in s'.results ==> x in s.results || x == id
    ensures Ids(s')
  {
    forall x | x in s'.results ensures Has(s'.jobs, x) {
      PutGet(s.jobs, id, job, x);
    }
  }

  lemma AssignKeepsTables(s: State, g: nat)
    requires Inv(s) && Enabled(s, Assign(g))
    ensures Tables(AssignNext(s, g))
  {
    var s', id := AssignNext(s, g), s.groups[g].jobId;
    SelectThenMark(s.slots, s.groups[g].members, id);
    PutKeepsIds(s, s', id, Started(Get(s.jobs, id), g, |FreeMembers(s.slots, s.groups[g].members)|));
    forall other
      ensures Has(s'.jobs, id) && Get(s'.jobs, id).status == IN_PROGRESS && Get(s'.jobs, id).group == g
      ensures Has(s'.jobs, other) <==> Has(s.jobs, other)
      ensures other != id && Has(s.jobs, other) ==> Get(s'.jobs, other) == Get(s.jobs, other)
    {
      AssignLookups(s, g, other);
    }
  }

  lemma AssignKeepsConserved(s: State, g: nat)
    requires Inv(s) && Enabled(s, Assign(g))
    ensures Has(AssignNext(s, g).jobs, s.groups[g].jobId)
    ensures Conserved(AssignNext(s, g), s.groups[g].jobId)
  {
    var s', id, members := AssignNext(s, g), s.groups[g].jobId, s.groups[g].members;
    AssignLookups(s, g, id);
    FreeMembersAre(s.slots, members);
    MarkBusyCounts(s.slots, members, FreeMembers(s.slots, members), id);
    assert Accounted(s, id);
  }

  lemma DealIsStretches(chosen: seq<int>, lines: seq<int>, k: nat)
    requires 0 < |chosen| <= |lines| && k < |chosen|
    ensures Deal(chosen, lines)[k].fd == chosen[k]
    ensures StretchOf(Deal(chosen, lines)[k].lines, lines, |chosen|, k)
  {
    QuotaFits(lines, |chosen|, k);
    var q := Quota(lines, |chosen|);
    assert (k + 1) * q == k * q + q;
  }

  lemma AssignKeepsAnswered(s: State, g: nat)
    requires Inv(s) && Enabled(s, Assign(g))
    ensures Has(AssignNext(s, g).jobs, s.groups[g].jobId)
    ensures Dealt(AssignNext(s, g), s.groups[g].jobId) && Answered(AssignNext(s, g), s.groups[g].jobId)
    ensures Staffed(AssignNext(s, g), s.groups[g].jobId)
  {
    var s', id, members := AssignNext(s, g), s.groups[g].jobId, s.groups[g].members;
    var chosen := FreeMembers(s.slots, members);
    AssignLookups(s, g, id);
    SelectThenMark(s.slots, members, id);
    FreeMembersAre(s.slots, members);
    assert Distinct(chosen);
    forall k | 0 <= k < |chosen|
      ensures s'.shares[id][k].fd >= 0 && StretchOf(s'.shares[id][k].lines, s'.data[id], |chosen|, k)
      ensures WorksOn(s'.slots, s'.shares[id][k].fd, id) && s'.shares[id][k].fd == chosen[k]
    {
      DealIsStretches(chosen, s.data[id], k);
      assert chosen[k] in chosen;
    }
    assert Dealt(s', id);
    assert Conserved(s, id) by {
      assert Accounted(s, id);
    }
    AssignStaffs(s, g);
  }

  lemma AssignStaffs(s: State, g: nat)
    requires Inv(s) && Enabled(s, Assign(g))
    ensures Staffed(AssignNext(s, g), s.groups[g].jobId)
  {
    var s', id, members := AssignNext(s, g), s.groups[g].jobId, s.groups[g].members;
    var chosen := FreeMembers(s.slots, members);
    SelectThenMark(s.slots, members, id);
    FreeMembersAre(s.slots, members);
    assert Accounted(s, id);
    forall i | 0 <= i < MAX_NUMBER_OF_CLIENTS && BusyOn(s'.slots[i], id)
      ensures HasShareOf(s'.shares[id], s'.slots[i].fd)
    {
      SumMember(OneBusyOn(id), s.slots, i);
      assert s.slots[i].fd in chosen;
      var k :| 0 <= k < |chosen| && chosen[k] == s.slots[i].fd;
      DealIsStretches(chosen, s.data[id], k);
    }
  }

  lemma AssignKeeps(s: State, g: nat)
    requires Inv(s) && Enabled(s, Assign(g))
    ensures Inv(AssignNext(s, g))
  {
    var s', id := AssignNext(s, g), s.groups[g].jobId;
    AssignKeepsTables(s, g);
    SelectThenMark(s.slots, s.groups[g].members, id);
    forall other | Has(s'.jobs, other) ensures Accounted(s', other) {
      AssignLookups(s, g, other);
      if other != id {
        UndisturbedKeeps(s, s', other);
      } else {
        AssignKeepsConserved(s, g);
        AssignKeepsAnswered(s, g);
      }
    }
  }

  // ---- Reply ----

  /** The lookups a reply makes all succeed, and the guards that protect them hold. */
  lemma ReplyLookups(s: State, fd: nat, id: int, value: int)
    requires Inv(s) && Enabled(s, Reply(fd, id, value))
    ensures var job, slots' := Get(s.jobs, id), FreeSlot(s.slots, fd, id);
            && job.status == IN_PROGRESS && job.group == s.home[id]
            && s.groups[job.group].jobId == id && s.groups[job.group].status == BUSY
            && slots' == s.slots[HashFunc(fd) := s.slots[HashFunc(fd)].(status := FREE)]
            && Sum(OneBusyOn(id), slots') + 1 == Outstanding(s, id)
            && |RepliesTo(s, id)| + Outstanding(s, id) == job.clients
  {
    var i := HashFunc(fd);
    assert Has(s.jobs, s.slots[i].jobId);
    SumUpdate(OneBusyOn(id), s.slots, i, s.slots[i].(status := FREE));
    assert Accounted(s, id);
  }

  /** The reply completes the job exactly when it is the last one outstanding. */
  lemma ReplyCompletesLast(s: State, fd: nat, id: int, value: int)
    requires Inv(s) && Enabled(s, Reply(fd, id, value))
    ensures var s' := ReplyNext(s, fd, id, value);
            && Has(s'.jobs, id)
            && (Outstanding(s, id) == 1 ==>
                  && Get(s'.jobs, id)
                       == Completed(Get(s.jobs, id), Extreme(Get(s.jobs, id).operation, RepliesTo(s', id)))
                  && s'.groups == FreeGroup(s.groups, Get(s.jobs, id).group, id))
            && (Outstanding(s, id) > 1 ==> Get(s'.jobs, id) == Get(s.jobs, id) && s'.groups == s.groups)
            && (forall other :: other != id ==> (Has(s'.jobs, other) <==> Has(s.jobs, other)))
            && (forall other :: other != id && Has(s.jobs, other) ==> Get(s'.jobs, other) == Get(s.jobs, other))
  {
    var s' := ReplyNext(s, fd, id, value);
    ReplyLookups(s, fd, id, value);
    var done := Completed(Get(s.jobs, id), Extreme(Get(s.jobs, id).operation, RepliesTo(s', id)));
    PutGet(s.jobs, id, done, id);
    if Outstanding(s, id) == 1 {
      assert s'.jobs == Put(s.jobs, id, done);
      forall other | other != id
        ensures Has(s'.jobs, other) <==> Has(s.jobs, other)
        ensures Has(s.jobs, other) ==> Get(s'.jobs, other) == Get(s.jobs, other)
      {
        PutGet(s.jobs, id, done, other);
      }
    } else {
      assert s'.jobs == s.jobs;
    }
  }

  lemma ReplyKeepsIds(s: State, fd: nat, id: int, value: int)
    requires Inv(s) && Enabled(s, Reply(fd, id, value))
    ensures Ids(ReplyNext(s, fd, id, value))
  {
    var s' := ReplyNext(s, fd, id, value);
    var job := Get(s.jobs, id);
    if s'.jobs != s.jobs {
      PutKeepsIds(s, s', id, Completed(job, Extreme(job.operation, RepliesTo(s', id))));
    }
  }

  lemma ReplyKeepsHomes(s: State, s': State, id: int, job: Job)
    requires Homes(s) && OnlyPut(s, s', id, job) && Has(s.jobs, id) && id != -1
    requires Get(s.jobs, id).status == IN_PROGRESS && job.group == Get(s.jobs, id).group
    requires s'.home == s.home && |s'.slots| == |s.slots|
    requires (job.status == IN_PROGRESS && s'.groups == s.groups)
             || (job.status == COMPLETE && 0 <= job.group < NUMBER_OF_GROUPS
                 && s'.groups == FreeGroup(s.groups, job.group, id))
    ensures Homes(s')
  {
  }

  lemma FreeingKeepsLists(s: State, fd: nat, id: int, s': State)
    requires Lists(s) && FullSize(s'.groups) && s'.slots == FreeSlot(s.slots, fd, id)
    requires forall g :: 0 <= g < NUMBER_OF_GROUPS ==> s'.groups[g].members == s.groups[g].members
    ensures Lists(s')
  {
  }

  lemma ReplyKeepsLists(s: State, fd: nat, id: int, value: int)
    requires Inv(s) && Enabled(s, Reply(fd, id, value))
    ensures Lists(ReplyNext(s, fd, id, value))
  {
    FreeingKeepsLists(s, fd, id, ReplyNext(s, fd, id, value));
  }

  lemma ReplyKeepsTables(s: State, fd: nat, id: int, value: int)
    requires Inv(s) && Enabled(s, Reply(fd, id, value))
    ensures Tables(ReplyNext(s, fd, id, value))
  {
    var s' := ReplyNext(s, fd, id, value);
    ReplyKeepsLists(s, fd, id, value);
    ReplyKeepsIds(s, fd, id, value);
    ReplyLookups(s, fd, id, value);
    ReplyCompletesLast(s, fd, id, value);
    assert Accounted(s, id);
    ReplyKeepsHomes(s, s', id, Get(s'.jobs, id));
    ReplyKeepsWorkers(s, fd, id, value);
  }

  lemma ReplyKeepsWorkers(s: State, fd: nat, id: int, value: int)
    requires Inv(s) && Enabled(s, Reply(fd, id, value))
    ensures Workers(ReplyNext(s, fd, id, value))
  {
    var s' := ReplyNext(s, fd, id, value);
    ReplyLookups(s, fd, id, value);
    ReplyCompletesLast(s, fd, id, value);
    assert Accounted(s, id);
    forall i | 0 <= i < |s'.slots| && s'.slots[i].status == BUSY
      ensures Has(s'.jobs, s'.slots[i].jobId) && Get(s'.jobs, s'.slots[i].jobId).status == IN_PROGRESS
    {
      assert s'.slots[i] == s.slots[i];
      if s.slots[i].jobId == id {
        SumMember(OneBusyOn(id), s'.slots, i);
      }
    }
  }

  /** A share other than the replying client's is still worked on if it was. */
  lemma ReplyKeepsWorking(s: State, fd: nat, id: int, value: int, k: nat)
    requires Sized(s) && HasShare(s, id, fd, value) && Dealt(s, id) && Answered(s, id) && k < |s.shares[id]|
    ensures var share := s.shares[id][k];
            || WorksOn(FreeSlot(s.slots, fd, id), share.fd, id)
            || Extreme(Get(s.jobs, id).operation, share.lines) in RepliesTo(s, id) + [value]
  {
    var share := s.shares[id][k];
    if share.fd == fd {
      var j :| 0 <= j < |s.shares[id]| && s.shares[id][j].fd == fd
               && IsAnswer(Get(s.jobs, id).operation, s.shares[id][j], value);
      assert j == k;
    } else {
      OthersWork(s.slots, fd, id, share.fd);
    }
  }

  lemma OthersWork(slots: seq<Slot>, fd: nat, id: int, other: nat)
    requires |slots| == MAX_NUMBER_OF_CLIENTS && other != fd
    ensures WorksOn(FreeSlot(slots, fd, id), other, id) <==> WorksOn(slots, other, id)
  {
  }

  lemma ReplyKeepsValues(s: State, fd: nat, id: int, value: int, v: int)
    requires Sized(s) && HasShare(s, id, fd, value) && Dealt(s, id) && Answered(s, id)
    requires v in RepliesTo(s, id) + [value]
    ensures AnswersSome(Get(s.jobs, id).operation, s.shares[id], v)
  {
  }

  lemma ReplyAnswers(s: State, fd: nat, id: int, value: int, s': State)
    requires Sized(s) && HasShare(s, id, fd, value) && Dealt(s, id) && Answered(s, id)
    requires s'.slots == FreeSlot(s.slots, fd, id) && s'.shares == s.shares && Sized(s')
    requires RepliesTo(s', id) == RepliesTo(s, id) + [value]
    requires Has(s'.jobs, id) && Get(s'.jobs, id).operation == Get(s.jobs, id).operation && Dealt(s', id)
    requires Get(s'.jobs, id).status == COMPLETE ==>
               Get(s'.jobs, id).result == Extreme(Get(s.jobs, id).operation, RepliesTo(s', id))
    ensures Answered(s', id)
  {
    forall k | 0 <= k < |s.shares[id]|
      ensures WorksOn(s'.slots, s.shares[id][k].fd, id)
              || Extreme(Get(s.jobs, id).operation, s.shares[id][k].lines) in RepliesTo(s', id)
    {
      ReplyKeepsWorking(s, fd, id, value, k);
    }
    forall v | v in RepliesTo(s', id)
      ensures AnswersSome(Get(s.jobs, id).operation, s.shares[id], v)
    {
      ReplyKeepsValues(s, fd, id, value, v);
    }
  }

  lemma ReplyKeepsAnswered(s: State, fd: nat, id: int, value: int)
    requires Inv(s) && Enabled(s, Reply(fd, id, value)) && Accounted(s, id)
    requires Get(s.jobs, id).status == IN_PROGRESS
    ensures var s' := ReplyNext(s, fd, id, value);
            Has(s'.jobs, id) && Dealt(s', id) && Answered(s', id)
  {
    var s' := ReplyNext(s, fd, id, value);
    ReplyCompletesLast(s, fd, id, value);
    assert Dealt(s', id);
    ReplyAnswers(s, fd, id, value, s');
  }

  lemma ReplyKeepsConserved(s: State, fd: nat, id: int, value: int)
    requires Inv(s) && Enabled(s, Reply(fd, id, value))
    ensures var s' := ReplyNext(s, fd, id, value); Has(s'.jobs, id) && Conserved(s', id)
  {
    ReplyLookups(s, fd, id, value);
    ReplyCompletesLast(s, fd, id, value);
    assert Accounted(s, id);
  }

  lemma ReplyUndisturbs(s: State, fd: nat, id: int, value: int, other: int)
    requires Inv(s) && Enabled(s, Reply(fd, id, value)) && other != id && Has(s.jobs, other)
    ensures Undisturbed(s, ReplyNext(s, fd, id, value), other)
  {
    ReplyCompletesLast(s, fd, id, value);
  }

  lemma FreeingKeepsStaffed(s: State, fd: nat, id: int, s': State)
    requires Sized(s) && Sized(s') && id in s.shares && Staffed(s, id)
    requires s'.slots == FreeSlot(s.slots, fd, id) && s'.shares == s.shares
    ensures Staffed(s', id)
  {
  }

  lemma ReplyAccounts(s: State, fd: nat, id: int, value: int)
    requires Inv(s) && Enabled(s, Reply(fd, id, value))
    ensures Has(ReplyNext(s, fd, id, value).jobs, id) && Accounted(ReplyNext(s, fd, id, value), id)
  {
    ReplyLookups(s, fd, id, value);
    ReplyKeepsConserved(s, fd, id, value);
    assert Accounted(s, id);
    ReplyKeepsAnswered(s, fd, id, value);
    FreeingKeepsStaffed(s, fd, id, ReplyNext(s, fd, id, value));
  }

  lemma ReplyKeeps(s: State, fd: nat, id: int, value: int)
    requires Inv(s) && Enabled(s, Reply(fd, id, value))
    ensures Inv(ReplyNext(s, fd, id, value))
  {
    var s' := ReplyNext(s, fd, id, value);
    ReplyKeepsTables(s, fd, id, value);
    ReplyCompletesLast(s, fd, id, value);
    forall other | Has(s'.jobs, other) ensures Accounted(s', other) {
      if other == id {
        ReplyAccounts(s, fd, id, value);
      } else {
        ReplyUndisturbs(s, fd, id, value, other);
        UndisturbedKeeps(s, s', other);
      }
    }
  }

  // ---- Every run ----

  lemma NextKeeps(s: State, a: Step)
    requires Inv(s) && Enabled(s, a)
    ensures Inv(Next(s, a))
  {
    match a
    case Register(fd, gs) => RegisterKeeps(s, fd, gs);
    case StartJob(operation, lines) => StartJobKeeps(s, operation, lines);
    case Assign(g) => AssignKeeps(s, g);
    case Reply(fd, job, value) => ReplyKeeps(s, fd, job, value);
  }

  lemma {:induction false} RunKeeps(states: seq<State>, steps: seq<Step>, k: nat)
    requires IsRun(states, steps) && Inv(states[0]) && k <= |steps|
    ensures Inv(states[k])
  {
    if k > 0 {
      RunKeeps(states, steps, k - 1);
      assert Follows(states[k - 1], steps[k - 1], states[k - 1 + 1]);
      NextKeeps(states[k - 1], steps[k - 1]);
    }
  }

  lemma ReachableInv(s: State)
    requires Reachable(s)
    ensures Inv(s)
  {
    var states, steps :| RunTo(states, steps, s);
    assert Inv(states[0]);
    RunKeeps(states, steps, |steps|);
  }
}
