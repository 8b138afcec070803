/** The server's three tables as values: the multicast groups, the client slots and the
    list of jobs, with what each function of group_algo.c, client_algo.c and
    job_code.c does to them. */
module JobTables {

  const NUMBER_OF_GROUPS := 1000
  const MAX_NUMBER_OF_CLIENTS := 255_000
  const JOB_MIN := 1
  const JOB_MAX := 2

  datatype Status = FREE | BUSY
  datatype JobStatus = NOT_STARTED | IN_PROGRESS | COMPLETE

  /** members lists the sockets from the head of the list. */
  datatype Group = Group(status: Status, jobId: int, members: seq<int>)
  datatype Slot = Slot(fd: int, status: Status, jobId: int, joined: seq<int>)
  datatype Job = Job(id: int, operation: int, group: int, clients: int, status: JobStatus, result: int)

  /** hash_func, for the descriptors that accept can return. */
  function HashFunc(fd: nat): (i: nat)
    ensures i < 255_000 && (fd < 255_000 ==> i == fd)
  {
    fd % MAX_NUMBER_OF_CLIENTS
  }

  predicate InRange(gs: seq<int>) { forall k :: 0 <= k < |gs| ==> 0 <= gs[k] < NUMBER_OF_GROUPS }
  predicate Distinct<T(==)>(s: seq<T>) { forall a, b :: 0 <= a < b < |s| ==> s[a] != s[b] }
  predicate FullSize(groups: seq<Group>) { |groups| == NUMBER_OF_GROUPS }

  // ---- group_algo.c ----

  function Joined(g: Group, fd: int): Group { g.(members := [fd] + g.members) }

  /** add_a_client_to_groups: the client goes to the head of each list. */
  function AddToGroups(groups: seq<Group>, fd: int, gs: seq<int>): (r: seq<Group>)
    requires FullSize(groups) && InRange(gs)
    ensures FullSize(r)
    decreases gs
  {
    if gs == [] then groups
    else
      assert forall k :: 0 <= k < |gs[1..]| ==> gs[1..][k] == gs[k + 1];
      AddToGroups(groups[gs[0] := Joined(groups[gs[0]], fd)], fd, gs[1..])
  }

  /** The list without its first occurrence of fd. */
  function Without(members: seq<int>, fd: int): seq<int> {
    if members == [] then []
    else if members[0] == fd then members[1..]
    else [members[0]] + Without(members[1..], fd)
  }

  function Parted(g: Group, fd: int): Group { g.(members := Without(g.members, fd)) }

  /** remove_client_from_groups */
  function RemoveFromGroups(groups: seq<Group>, fd: int, gs: seq<int>): (r: seq<Group>)
    requires FullSize(groups) && InRange(gs)
    ensures FullSize(r)
    decreases gs
  {
    if gs == [] then groups
    else
      assert forall k :: 0 <= k < |gs[1..]| ==> gs[1..][k] == gs[k + 1];
      RemoveFromGroups(groups[gs[0] := Parted(groups[gs[0]], fd)], fd, gs[1..])
  }

  predicate Available(g: Group) { g.status == FREE && g.members != [] }

  /** find_free_group from group i on: the first available group, or -1. */
  function FindFreeGroup(groups: seq<Group>, i: nat): (r: int)
    ensures r == -1 || (i <= r < |groups| && groups[r].status == FREE && groups[r].members != [])
    ensures forall k :: i <= k < |groups| && (r == -1 || k < r) ==> groups[k].status == BUSY || groups[k].members == []
    decreases |groups| - i
  {
    if i >= |groups| then -1
    else if Available(groups[i]) then i
    else FindFreeGroup(groups, i + 1)
  }

  predicate IsFree(slots: seq<Slot>, fd: int)
    requires |slots| == MAX_NUMBER_OF_CLIENTS
  {
    fd >= 0 && slots[HashFunc(fd)].fd == fd && slots[HashFunc(fd)].status == FREE
  }

  /** find_free_clients_in_a_group: the members that are registered and free, in order. */
  function FreeMembers(slots: seq<Slot>, members: seq<int>): (r: seq<int>)
    requires |slots| == MAX_NUMBER_OF_CLIENTS
  {
    if members == [] then []
    else
      var later := FreeMembers(slots, members[1..]);
      if IsFree(slots, members[0]) then [members[0]] + later else later
  }

  /** One round of update_client_with_job_assigned. */
  function MarkOne(slots: seq<Slot>, fd: int, chosen: seq<int>, job: int): (r: seq<Slot>)
    requires |slots| == MAX_NUMBER_OF_CLIENTS
    ensures |r| == |slots|
  {
    if fd in chosen && fd >= 0 && slots[HashFunc(fd)].fd == fd then
      slots[HashFunc(fd) := slots[HashFunc(fd)].(jobId := job, status := BUSY)]
    else slots
  }

  /** update_client_with_job_assigned */
  function MarkBusy(slots: seq<Slot>, members: seq<int>, chosen: seq<int>, job: int): (r: seq<Slot>)
    requires |slots| == MAX_NUMBER_OF_CLIENTS
    ensures |r| == |slots|
    decreases members
  {
    if members == [] then slots
    else MarkBusy(MarkOne(slots, members[0], chosen, job), members[1..], chosen, job)
  }

  /** update_client_status_to_free */
  function FreeSlot(slots: seq<Slot>, fd: nat, job: int): (r: seq<Slot>)
    requires |slots| == MAX_NUMBER_OF_CLIENTS
    ensures |r| == |slots|
  {
    var i := HashFunc(fd);
    if slots[i].fd == fd && slots[i].jobId == job then slots[i := slots[i].(status := FREE)] else slots
  }

  /** update_group_with_job_assigned */
  function TakeGroup(groups: seq<Group>, g: nat, job: int): seq<Group>
    requires g < |groups|
  {
    groups[g := groups[g].(jobId := job, status := BUSY)]
  }

  /** update_group_status_to_free */
  function FreeGroup(groups: seq<Group>, g: nat, job: int): seq<Group>
    requires g < |groups|
  {
    if groups[g].jobId == job then groups[g := groups[g].(status := FREE)] else groups
  }

  // ---- client_algo.c ----

  /** add_client: 0 and a filled slot, or -1 and no change if the slot is taken. */
  function AddClient(slots: seq<Slot>, fd: nat, gs: seq<int>): (seq<Slot>, int)
    requires |slots| == MAX_NUMBER_OF_CLIENTS
  {
    var i := HashFunc(fd);
    if slots[i].fd == -1 then (slots[i := slots[i].(fd := fd, joined := gs)], 0) else (slots, -1)
  }

  /** remove_client */
  function RemoveClient(slots: seq<Slot>, fd: nat): (seq<Slot>, int)
    requires |slots| == MAX_NUMBER_OF_CLIENTS
  {
    var i := HashFunc(fd);
    if slots[i].fd == fd then (slots[i := slots[i].(fd := -1, joined := [])], 0) else (slots, -1)
  }

  // ---- job_code.c ----

  /** add_job: a new record at the head. */
  function AddJob(jobs: seq<Job>, id: int, operation: int): seq<Job> {
    [Job(id, operation, 0, 0, NOT_STARTED, -1)] + jobs
  }

  /** The walk every lookup and update makes: the position of the first record with this
      id, or the length of the list. */
  function Find(jobs: seq<Job>, id: int): (k: nat)
    ensures k <= |jobs|
    ensures forall j :: 0 <= j < k ==> jobs[j].id != id
    ensures k < |jobs| ==> jobs[k].id == id
  {
    if jobs == [] || jobs[0].id == id then 0
    else
      var k := Find(jobs[1..], id);
      assert forall j :: 1 <= j <= k ==> jobs[j] == jobs[1..][j - 1] || j == |jobs|;
      k + 1
  }

  predicate Has(jobs: seq<Job>, id: int) { Find(jobs, id) < |jobs| }

  function Get(jobs: seq<Job>, id: int): Job
    requires Has(jobs, id)
  {
    jobs[Find(jobs, id)]
  }

  function Put(jobs: seq<Job>, id: int, job: Job): seq<Job>
    requires Has(jobs, id)
  {
    jobs[Find(jobs, id) := job]
  }

  function Started(job: Job, group: int, clients: int): Job {
    job.(group := group, clients := clients, status := IN_PROGRESS)
  }

  function Completed(job: Job, result: int): Job {
    job.(status := COMPLETE, result := result)
  }

  /** The ids from the head on. */
  predicate Decreasing(jobs: seq<Job>) {
    forall a, b :: 0 <= a < b < |jobs| ==> jobs[a].id > jobs[b].id
  }

  // ---- Their laws ----

  lemma {:induction false} AddToGroupsAt(groups: seq<Group>, fd: int, gs: seq<int>, g: nat)
    requires FullSize(groups) && InRange(gs) && Distinct(gs) && g < NUMBER_OF_GROUPS
    ensures AddToGroups(groups, fd, gs)[g]
              == if g in gs then Group(groups[g].status, groups[g].jobId, [fd] + groups[g].members) else groups[g]
    decreases gs
  {
    if gs != [] {
      forall a, b | 0 <= a < b < |gs[1..]| ensures gs[1..][a] != gs[1..][b] {
        assert gs[1..][a] == gs[a + 1] && gs[1..][b] == gs[b + 1];
      }
      assert gs[0] !in gs[1..];
      assert forall x :: x in gs <==> x == gs[0] || x in gs[1..] by {
        assert gs == [gs[0]] + gs[1..];
      }
      AddToGroupsAt(groups[gs[0] := Joined(groups[gs[0]], fd)], fd, gs[1..], g);
    }
  }

  lemma {:induction false} RemoveFromGroupsAt(groups: seq<Group>, fd: int, gs: seq<int>, g: nat)
    requires FullSize(groups) && InRange(gs) && Distinct(gs) && g < NUMBER_OF_GROUPS
    ensures RemoveFromGroups(groups, fd, gs)[g]
              == if g in gs then Group(groups[g].status, groups[g].jobId, Without(groups[g].members, fd)) else groups[g]
    decreases gs
  {
    if gs != [] {
      forall a, b | 0 <= a < b < |gs[1..]| ensures gs[1..][a] != gs[1..][b] {
        assert gs[1..][a] == gs[a + 1] && gs[1..][b] == gs[b + 1];
      }
      assert gs[0] !in gs[1..];
      assert forall x :: x in gs <==> x == gs[0] || x in gs[1..] by {
        assert gs == [gs[0]] + gs[1..];
      }
      RemoveFromGroupsAt(groups[gs[0] := Parted(groups[gs[0]], fd)], fd, gs[1..], g);
    }
  }

  /** Taking a group, and freeing it, which needs its guard: the group has moved on if it
      names another job. */
  lemma TakeAndFree(groups: seq<Group>, g: nat, job: int, other: int, h: nat)
    requires g < |groups| && h < |groups| && other != job
    ensures TakeGroup(groups, g, job)[h] == if h == g then Group(BUSY, job, groups[g].members) else groups[h]
    ensures FreeGroup(TakeGroup(groups, g, job), g, other) == TakeGroup(groups, g, job)
    ensures FreeGroup(TakeGroup(groups, g, job), g, job)[h]
              == if h == g then Group(FREE, job, groups[g].members) else groups[h]
  {
  }

  /** A client is freed if the slot is its own and names the job; no other slot changes. */
  lemma FreeSlotAt(slots: seq<Slot>, fd: nat, job: int, i: nat)
    requires |slots| == MAX_NUMBER_OF_CLIENTS && i < |slots|
    ensures FreeSlot(slots, fd, job)[i] ==
              if i == HashFunc(fd) && slots[i].fd == fd && slots[i].jobId == job
              then Slot(fd, FREE, job, slots[i].joined) else slots[i]
  {
  }

  /** Joining distinct groups and leaving them again restores every list exactly, whatever
      the lists hold. */
  lemma RegisterThenRemove(groups: seq<Group>, fd: int, gs: seq<int>)
    requires FullSize(groups) && InRange(gs) && Distinct(gs)
    ensures RemoveFromGroups(AddToGroups(groups, fd, gs), fd, gs) == groups
  {
    var added := AddToGroups(groups, fd, gs);
    forall g | 0 <= g < NUMBER_OF_GROUPS ensures RemoveFromGroups(added, fd, gs)[g] == groups[g] {
      AddToGroupsAt(groups, fd, gs, g);
      RemoveFromGroupsAt(added, fd, gs, g);
      assert Without([fd] + groups[g].members, fd) == groups[g].members;
    }
  }

  /** Removal deletes one occurrence, the first, and keeps the order of the others. */
  lemma {:induction false} WithoutFirst(members: seq<int>, fd: int, k: nat)
    requires k < |members| && members[k] == fd && fd !in members[..k]
    ensures Without(members, fd) == members[..k] + members[k + 1..]
  {
    if k > 0 {
      assert members[0] in members[..k];
      assert members[..k] == [members[0]] + members[1..][..k - 1];
      assert members[k + 1..] == members[1..][k..];
      WithoutFirst(members[1..], fd, k - 1);
    }
  }

  lemma {:induction false} WithoutAbsent(members: seq<int>, fd: int)
    requires fd !in members
    ensures Without(members, fd) == members
  {
    if members != [] {
      assert fd != members[0] && fd !in members[1..];
      WithoutAbsent(members[1..], fd);
    }
  }

  /** Marking makes exactly the chosen, registered members of the list busy on the job and
      leaves every other slot as it was. */
  lemma {:induction false} MarkBusyAt(slots: seq<Slot>, members: seq<int>, chosen: seq<int>, job: int, i: nat)
    requires |slots| == MAX_NUMBER_OF_CLIENTS && i < |slots|
    ensures var fd := slots[i].fd;
            MarkBusy(slots, members, chosen, job)[i] ==
              if fd >= 0 && HashFunc(fd) == i && fd in members && fd in chosen
              then slots[i].(jobId := job, status := BUSY) else slots[i]
    decreases members
  {
    if members != [] {
      assert members == [members[0]] + members[1..];
      MarkBusyAt(MarkOne(slots, members[0], chosen, job), members[1..], chosen, job, i);
    }
  }

  /** The selection has the free members, each once if the list has. */
  lemma {:induction false} FreeMembersAre(slots: seq<Slot>, members: seq<int>)
    requires |slots| == MAX_NUMBER_OF_CLIENTS
    ensures forall fd :: fd in FreeMembers(slots, members) <==> fd in members && IsFree(slots, fd)
    ensures Distinct(members) ==> Distinct(FreeMembers(slots, members))
  {
    if members != [] {
      assert forall k :: 0 <= k < |members[1..]| ==> members[1..][k] == members[k + 1];
      FreeMembersAre(slots, members[1..]);
    }
  }

  /** It keeps the order of the list: it selects from each part by itself. */
  lemma {:induction false} FreeMembersInOrder(slots: seq<Slot>, a: seq<int>, b: seq<int>)
    requires |slots| == MAX_NUMBER_OF_CLIENTS
    ensures FreeMembers(slots, a + b) == FreeMembers(slots, a) + FreeMembers(slots, b)
    ensures forall fd: int :: FreeMembers(slots, [fd]) == if IsFree(slots, fd) then [fd] else []
  {
    forall fd: int ensures FreeMembers(slots, [fd]) == if IsFree(slots, fd) then [fd] else [] {
      assert [fd][1..] == [];
    }
    if a == [] {
      assert a + b == b;
    } else {
      assert (a + b)[1..] == a[1..] + b;
      FreeMembersInOrder(slots, a[1..], b);
    }
  }

  /** A client is added exactly when its slot is empty, is then found there, and removing it
      leaves the table as it was; otherwise nothing changes. */
  lemma AddThenRemoveClient(slots: seq<Slot>, fd: nat, gs: seq<int>)
    requires |slots| == MAX_NUMBER_OF_CLIENTS
    requires slots[HashFunc(fd)].fd == -1 ==> slots[HashFunc(fd)].joined == []
    ensures var (added, code) := AddClient(slots, fd, gs);
            && (slots[HashFunc(fd)].fd != fd ==> RemoveClient(slots, fd) == (slots, -1))
            && if slots[HashFunc(fd)].fd == -1 then
              && code == 0 && added[HashFunc(fd)].fd == fd && added[HashFunc(fd)].joined == gs
              && RemoveClient(added, fd) == (slots, 0) && AddClient(added, fd, gs) == (added, -1)
            else code == -1 && added == slots
  {
    var i := HashFunc(fd);
    if slots[i].fd == -1 {
      var added := AddClient(slots, fd, gs).0;
      assert RemoveClient(added, fd).0[i] == slots[i];
      assert RemoveClient(added, fd).0 == slots;
    }
  }

  /** A client is selected exactly when it is a member, its slot is its own and free. */
  lemma SelectedIff(slots: seq<Slot>, members: seq<int>, fd: nat)
    requires |slots| == MAX_NUMBER_OF_CLIENTS
    ensures fd in FreeMembers(slots, members) <==>
              fd in members && slots[HashFunc(fd)].fd == fd && slots[HashFunc(fd)].status == FREE
  {
    FreeMembersAre(slots, members);
  }

  predicate Consistent(slots: seq<Slot>) {
    |slots| == MAX_NUMBER_OF_CLIENTS
    && forall i :: 0 <= i < |slots| ==> slots[i].fd == -1 || (slots[i].fd >= 0 && HashFunc(slots[i].fd) == i)
  }

  /** Selecting and marking agree: the free registered members become busy on the job, no
      other slot changes, and selecting again at once finds nobody. */
  lemma SelectThenMark(slots: seq<Slot>, members: seq<int>, job: int)
    requires Consistent(slots)
    ensures var marked := MarkBusy(slots, members, FreeMembers(slots, members), job);
            && Consistent(marked)
            && (forall i :: 0 <= i < |slots| ==>
                  marked[i] == if slots[i].fd in members && slots[i].fd >= 0 && slots[i].status == FREE
                               then slots[i].(jobId := job, status := BUSY) else slots[i])
            && FreeMembers(marked, members) == []
  {
    var chosen := FreeMembers(slots, members);
    var marked := MarkBusy(slots, members, chosen, job);
    FreeMembersAre(slots, members);
    FreeMembersAre(marked, members);
    forall i | 0 <= i < |slots|
      ensures marked[i] == if slots[i].fd in members && slots[i].fd >= 0 && slots[i].status == FREE
                           then slots[i].(jobId := job, status := BUSY) else slots[i]
    {
      MarkBusyAt(slots, members, chosen, job, i);
    }
    var again := FreeMembers(marked, members);
    forall fd ensures fd !in again {
      if fd >= 0 && fd in members {
        assert marked[HashFunc(fd)].fd == slots[HashFunc(fd)].fd;
      }
    }
    if again != [] {
      SomeoneIn(again);
    }
  }

  lemma SomeoneIn(s: seq<int>)
    requires s != []
    ensures exists x :: x in s
  {
    var x := s[0];
    assert x in s;
  }

  /** A record is found wherever it stands, and an update changes that record only. */
  lemma PutGet(jobs: seq<Job>, id: int, job: Job, other: int)
    requires Has(jobs, id) && job.id == id
    ensures Has(Put(jobs, id, job), id) && Get(Put(jobs, id, job), id) == job
    ensures Has(Put(jobs, id, job), other) <==> Has(jobs, other)
    ensures other != id && Has(jobs, other) ==> Get(Put(jobs, id, job), other) == Get(jobs, other)
  {
    var k := Find(jobs, id);
    var put := Put(jobs, id, job);
    FindUnique(put, id, k);
    if Has(jobs, other) {
      FindUnique(put, other, Find(jobs, other));
    } else if Has(put, other) {
      FindUnique(jobs, other, Find(put, other));
    }
  }

  lemma FindUnique(jobs: seq<Job>, id: int, k: nat)
    requires k < |jobs| && jobs[k].id == id && forall j :: 0 <= j < k ==> jobs[j].id != id
    ensures Find(jobs, id) == k
  {
  }

  lemma AddThenGet(jobs: seq<Job>, id: int, operation: int, other: int)
    requires !Has(jobs, id)
    ensures Get(AddJob(jobs, id, operation), id) == Job(id, operation, 0, 0, NOT_STARTED, -1)
    ensures other != id ==> (Has(AddJob(jobs, id, operation), other) <==> Has(jobs, other))
    ensures other != id && Has(jobs, other) ==> Get(AddJob(jobs, id, operation), other) == Get(jobs, other)
  {
    var added := AddJob(jobs, id, operation);
    assert added[1..] == jobs;
  }
}
