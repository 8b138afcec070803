/** The handlers of the job protocol over the three tables on the heap, each a step of
    JobProtocol. */
module JobServer {
  import opened JobTables
  import opened JobProtocol
  import opened GroupLists
  import opened JobListHeap

  /** What client_Handler is told: where to send, which lines, for which group and job. */
  datatype ClientArgument = ClientArgument(fd: int, lines: seq<int>, group: int, operation: int)

  class Server {
    const groups: GroupTable
    const clients: ClientTable
    const jobs: JobList
    var jobId: int                       // the global job_id
    var results: map<int, seq<int>>      // the lines of each file Result_<id>
    ghost var data: map<int, seq<int>>
    ghost var home: map<int, int>
    ghost var shares: map<int, seq<Share>>

    ghost predicate Valid()
      reads this, groups, groups.rows, groups.nodes, clients.slots, jobs, jobs.nodes
    {
      groups.Valid() && clients.Valid() && jobs.Valid()
    }

    ghost function View(): State
      requires Valid()
      reads this, groups, groups.rows, groups.nodes, clients.slots, jobs, jobs.nodes
    {
      State(groups.contents, clients.slots[..], jobs.contents, jobId, results, data, home, shares)
    }

    constructor ()
      ensures Valid() && Init(View())
      ensures fresh(groups) && fresh(groups.rows) && fresh(clients) && fresh(clients.slots) && fresh(jobs)
    {
      groups := new GroupTable();
      clients := new ClientTable();
      jobs := new JobList();
      jobId := 0;
      results := map[];
      data, home, shares := map[], map[], map[];
    }

    /** Handle_group_id_regs, once the group numbers are decoded. */
    method HandleGroupIdRegs(fd: nat, gs: seq<int>)
      requires Valid() && Enabled(View(), Register(fd, gs))
      modifies groups, groups.rows, clients.slots
      ensures Valid() && View() == Next(old(View()), Register(fd, gs))
    {
      groups.AddAClientToGroups(fd, gs);
      var code := clients.AddClient(fd, gs);
    }

    method JobAddition(operation: int, lines: seq<int>) returns (group: int)
      requires Valid() && Enabled(View(), StartJob(operation, lines))
      modifies this`jobId, this`data, this`home, groups`contents, groups.rows, jobs
      ensures Valid() && View() == Next(old(View()), StartJob(operation, lines))
      ensures group == FindFreeGroup(old(groups.contents), 0)
    {
      ghost var before := View();
      group := AddAndTake(operation, lines);
      StartJobIs(before, operation, lines, View());
    }

    ghost method RecordData(group: int, lines: seq<int>)
      requires Valid()
      modifies this`data, this`home
      ensures Valid()
      ensures View() == old(View()).(data := old(data)[jobId := lines], home := old(home)[jobId := group])
    {
      data := data[jobId := lines];
      home := home[jobId := group];
    }

    /** Lines 298-301. */
    method AddAndTake(operation: int, ghost lines: seq<int>) returns (group: int)
      requires Valid() && FindFreeGroup(groups.contents, 0) != -1
      modifies this`jobId, this`data, this`home, groups`contents, groups.rows, jobs
      ensures Valid() && group == FindFreeGroup(old(groups.contents), 0)
      ensures Added(old(View()), group, operation, lines, View())
    {
      group := groups.FindFreeGroup();
      EnterJob(group, operation);
      RecordData(group, lines);
    }

    method EnterJob(group: nat, operation: int)
      requires Valid() && group < NUMBER_OF_GROUPS
      modifies this`jobId, groups`contents, groups.rows, jobs
      ensures Valid() && View() == Entered(old(View()), group, operation)
    {
      jobId := jobId + 1;
      NewRecord(operation);
      TakeForJob(group);
    }

    method NewRecord(operation: int)
      requires Valid()
      modifies jobs
      ensures Valid() && jobs.contents == AddJob(old(jobs.contents), jobId, operation)
      ensures fresh(jobs.nodes[..1]) && jobs.nodes[1..] == old(jobs.nodes)
    {
      var code := jobs.AddJob(jobId, operation);
    }

    method TakeForJob(group: nat)
      requires Valid() && group < NUMBER_OF_GROUPS
      modifies groups`contents, groups.rows
      ensures Valid() && groups.contents == TakeGroup(old(groups.contents), group, jobId)
    {
      groups.UpdateGroupWithJobAssigned(group, jobId);
    }

    /** The clients of group g that will work on its job. */
    method SelectClients(g: nat) returns (free: array<int>)
      requires Valid() && g < NUMBER_OF_GROUPS && groups.contents[g].members != []
      requires Sockets(groups.contents[g].members)
      modifies clients.slots
      ensures Valid() && fresh(free)
      ensures free[..] == FreeMembers(old(clients.slots[..]), groups.contents[g].members)
      ensures var group := groups.contents[g];
              clients.slots[..] == MarkBusy(old(clients.slots[..]), group.members, free[..], group.jobId)
    {
      groups.RowIs(g);
      var size;
      size, free := groups.FindFreeClients(g, clients);
      assert free[..size] == free[..];
      groups.UpdateClientWithJobAssigned(groups.rows[g].jobId, g, free, size, clients);
    }

    method RecordStart(id: int, g: nat, size: nat)
      requires Valid() && Has(jobs.contents, id)
      modifies jobs`contents, jobs.nodes
      ensures Valid() && jobs.contents == Put(old(jobs.contents), id, Started(Get(old(jobs.contents), id), g, size))
    {
      var code := jobs.UpdateJobStatusAndGroup(id, g, size);
    }

    /** Lines 217-221. */
    method SelectAndRecord(g: nat) returns (free: array<int>)
      requires Valid() && g < NUMBER_OF_GROUPS && groups.contents[g].members != []
      requires Sockets(groups.contents[g].members)
      requires Has(jobs.contents, groups.contents[g].jobId)
      modifies clients.slots, jobs`contents, jobs.nodes
      ensures Valid() && fresh(free)
      ensures free[..] == FreeMembers(old(clients.slots[..]), groups.contents[g].members)
      ensures var group := groups.contents[g];
              clients.slots[..] == MarkBusy(old(clients.slots[..]), group.members, free[..], group.jobId)
      ensures var id := groups.contents[g].jobId;
              jobs.contents == Put(old(jobs.contents), id, Started(Get(old(jobs.contents), id), g, free.Length))
    {
      free := SelectClients(g);
      groups.RowIs(g);
      RecordStart(groups.rows[g].jobId, g, free.Length);
    }

    /** The share of each chosen client as an argument of client_Handler. */
    static ghost predicate Hands(args: array<ClientArgument>, handed: seq<Share>, g: int, operation: int)
      reads args
    {
      args.Length == |handed| && forall i :: 0 <= i < args.Length ==>
        args[i] == ClientArgument(handed[i].fd, handed[i].lines, g, operation)
    }

    method SelectAndSplit(g: nat, operation: int, lines: seq<int>) returns (args: array<ClientArgument>)
      requires Valid() && g < NUMBER_OF_GROUPS && groups.contents[g].members != []
      requires Sockets(groups.contents[g].members)
      requires Has(jobs.contents, groups.contents[g].jobId)
      requires FreeMembers(clients.slots[..], groups.contents[g].members) != []
      modifies this`shares, clients.slots, jobs`contents, jobs.nodes
      ensures Valid()
      ensures Assigned(old(View()), g, lines, View()) && Hands(args, shares[groups.contents[g].jobId], g, operation)
    {
      var free := SelectAndRecord(g);
      args := SplitAmong(free, lines, g, operation);
      RecordShares(groups.contents[g].jobId, Deal(free[..], lines));
    }

    ghost method RecordShares(id: int, handed: seq<Share>)
      requires Valid()
      modifies this`shares
      ensures Valid() && shares == old(shares)[id := handed]
    {
      shares := shares[id := handed];
    }

    /** multicast_Group_Handler, up to the hand-over to client_Handler. */
    method AssignClients(g: nat, operation: int, lines: seq<int>) returns (args: array<ClientArgument>)
      requires Valid() && Enabled(View(), Assign(g)) && Sockets(groups.contents[g].members)
      requires data[groups.contents[g].jobId] == lines
      modifies this`shares, clients.slots, jobs`contents, jobs.nodes
      ensures Valid() && View() == Next(old(View()), Assign(g))
      ensures Hands(args, shares[groups.contents[g].jobId], g, operation)
    {
      ghost var before := View();
      AssignNeeds(before, g);
      args := SelectAndSplit(g, operation, lines);
      AssignIs(before, g, View());
    }

    /** Lines 223-283: q = floor(lines / size) lines for each client, in place. */
    static method SplitAmong(free: array<int>, lines: seq<int>, g: int, operation: int)
      returns (args: array<ClientArgument>)
      requires free.Length > 0
      ensures fresh(args)
      ensures Hands(args, Deal(free[..], lines), g, operation)
    {
      var size := free.Length;
      args := new ClientArgument[size](_ => ClientArgument(-1, [], g, operation));
      var quota := |lines| / size;
      ghost var handed := Deal(free[..], lines);
      var i := 0;
      while i < size
        invariant 0 <= i <= size
        invariant forall k :: 0 <= k < i ==> args[k] == ClientArgument(handed[k].fd, handed[k].lines, g, operation)
      {
        QuotaFits(lines, size, i);
        args[i] := ClientArgument(free[i], lines[i * quota..(i + 1) * quota], g, operation);
        i := i + 1;
      }
    }

    method FreeTheGroup(group: nat, job: int)
      requires Valid() && group < NUMBER_OF_GROUPS
      modifies groups`contents, groups.rows
      ensures Valid() && groups.contents == FreeGroup(old(groups.contents), group, job)
    {
      groups.UpdateGroupStatusToFree(group, job);
    }

    method RecordCompletion(job: int, result: int)
      requires Valid() && Has(jobs.contents, job)
      modifies jobs`contents, jobs.nodes
      ensures Valid() && jobs.contents == Put(old(jobs.contents), job, Completed(Get(old(jobs.contents), job), result))
    {
      var code := jobs.UpdateJobStatusToCompleted(job, result);
    }

    /** Lines 469-500, on the tables. */
    method FinishJob(job: int)
      requires Valid() && Has(jobs.contents, job) && job in results && results[job] != []
      requires 0 <= Get(jobs.contents, job).group < NUMBER_OF_GROUPS
      modifies groups`contents, groups.rows, jobs`contents, jobs.nodes
      ensures Valid()
      ensures var record := Get(old(jobs.contents), job);
              && groups.contents == FreeGroup(old(groups.contents), record.group, job)
              && jobs.contents
                   == Put(old(jobs.contents), job, Completed(record, Extreme(record.operation, results[job])))
    {
      var group := jobs.GetGroupIdFromJob(job);
      FreeTheGroup(group, job);
      var operation := jobs.GetJobOpFromId(job);
      RecordCompletion(job, Extreme(operation, results[job]));
    }

    /** Lines 451-466: the reply is recorded and its sender is free again. */
    method RecordReply(fd: nat, result: int, job: int)
      requires Valid()
      modifies this`results, clients.slots
      ensures Valid() && clients.slots[..] == FreeSlot(old(clients.slots[..]), fd, job)
      ensures results == old(results)[job := RepliesTo(old(View()), job) + [result]]
    {
      var file := if job in results then results[job] else [];
      results := results[job := file + [result]];
      clients.UpdateClientStatusToFree(fd, job);
    }

    method RecordAndFinish(fd: nat, result: int, job: int)
      requires Valid() && Has(jobs.contents, job) && 0 <= Get(jobs.contents, job).group < NUMBER_OF_GROUPS
      modifies this`results, groups`contents, groups.rows, clients.slots, jobs`contents, jobs.nodes
      ensures Valid() && clients.slots[..] == FreeSlot(old(clients.slots[..]), fd, job)
      ensures results == old(results)[job := RepliesTo(old(View()), job) + [result]]
      ensures var record := Get(old(jobs.contents), job);
              if |results[job]| == record.clients then
                && groups.contents == FreeGroup(old(groups.contents), record.group, job)
                && jobs.contents
                     == Put(old(jobs.contents), job, Completed(record, Extreme(record.operation, results[job])))
              else groups.contents == old(groups.contents) && jobs.contents == old(jobs.contents)
    {
      RecordReply(fd, result, job);
      var ready := jobs.TimeToComputeFinalResult(job, |results[job]|);
      if ready {
        FinishJob(job);
      }
    }

    method HandleResult(fd: nat, result: int, job: int)
      requires Valid() && Enabled(View(), Reply(fd, job, result))
      modifies this`results, groups`contents, groups.rows, clients.slots, jobs`contents, jobs.nodes
      ensures Valid() && View() == Next(old(View()), Reply(fd, job, result))
    {
      ghost var before := View();
      ReplyNeeds(before, fd, job, result);
      RecordAndFinish(fd, result, job);
      ReplyIs(before, fd, job, result, View());
    }
  }

  // ---- The steps, table by table ----

  function Entered(s: State, g: nat, operation: int): State
    requires g < |s.groups|
  {
    var id := s.lastId + 1;
    s.(groups := TakeGroup(s.groups, g, id), jobs := AddJob(s.jobs, id, operation), lastId := id)
  }

  ghost predicate Added(s: State, g: nat, operation: int, lines: seq<int>, s': State)
    requires g < |s.groups|
  {
    var id := s.lastId + 1;
    s' == Entered(s, g, operation).(data := s.data[id := lines], home := s.home[id := g])
  }

  lemma StartJobIs(s: State, operation: int, lines: seq<int>, s': State)
    requires Enabled(s, StartJob(operation, lines)) && Added(s, FindFreeGroup(s.groups, 0), operation, lines, s')
    ensures s' == Next(s, StartJob(operation, lines))
  {
  }

  lemma AssignNeeds(s: State, g: nat)
    requires Enabled(s, Assign(g))
    ensures g < NUMBER_OF_GROUPS && s.groups[g].members != [] && Has(s.jobs, s.groups[g].jobId)
    ensures FreeMembers(s.slots, s.groups[g].members) != []
  {
  }

  ghost predicate Assigned(s: State, g: nat, lines: seq<int>, s': State)
    requires Sized(s) && g < NUMBER_OF_GROUPS && Has(s.jobs, s.groups[g].jobId)
    requires FreeMembers(s.slots, s.groups[g].members) != []
  {
    var id, members := s.groups[g].jobId, s.groups[g].members;
    var chosen := FreeMembers(s.slots, members);
    s' == State(s.groups, MarkBusy(s.slots, members, chosen, id),
                Put(s.jobs, id, Started(Get(s.jobs, id), g, |chosen|)), s.lastId,
                s.results, s.data, s.home, s.shares[id := Deal(chosen, lines)])
  }

  lemma AssignIs(s: State, g: nat, s': State)
    requires Enabled(s, Assign(g)) && Assigned(s, g, s.data[s.groups[g].jobId], s')
    ensures s' == Next(s, Assign(g))
  {
  }

  lemma ReplyNeeds(s: State, fd: nat, id: int, value: int)
    requires Enabled(s, Reply(fd, id, value))
    ensures Has(s.jobs, id) && 0 <= Get(s.jobs, id).group < NUMBER_OF_GROUPS && Sized(s)
  {
  }

  lemma ReplyIs(s: State, fd: nat, id: int, value: int, s': State)
    requires Enabled(s, Reply(fd, id, value))
    requires var replies, job := RepliesTo(s, id) + [value], Get(s.jobs, id);
             var last := |replies| == job.clients;
             s' == State(if last then FreeGroup(s.groups, job.group, id) else s.groups,
                         FreeSlot(s.slots, fd, id),
                         if last then Put(s.jobs, id, Completed(job, Extreme(job.operation, replies))) else s.jobs,
                         s.lastId, s.results[id := replies], s.data, s.home, s.shares)
    ensures s' == Next(s, Reply(fd, id, value))
  {
  }
}
