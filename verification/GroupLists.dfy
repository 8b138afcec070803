/** group_algo.c on the heap: an array of groups, each with a linked list of its clients,
    over the table of client slots of client_algo.c. */
module GroupLists {
  import opened JobTables

  class ClientNode {
    const fd: int            // client_socket_fd
    var next: ClientNode?
    ghost const home: nat    // the group whose list it is made for

    constructor (fd: int, ghost home: nat)
      ensures this.fd == fd && next == null && this.home == home
    {
      this.fd := fd;
      this.home := home;
      next := null;
    }
  }

  datatype Row = Row(status: Status, jobId: int, count: int, head: ClientNode?)

  /** The nodes ns, from head along next, all different and all made for group g. */
  ghost predicate IsList(head: ClientNode?, ns: seq<ClientNode>, g: nat)
    reads ns
  {
    && (forall i :: 0 <= i < |ns| ==> ns[i].home == g)
    && (forall i, j :: 0 <= i < j < |ns| ==> ns[i] != ns[j])
    && head == (if ns == [] then null else ns[0])
    && (forall i :: 0 <= i < |ns| - 1 ==> ns[i].next == ns[i + 1])
    && (ns != [] ==> ns[|ns| - 1].next == null)
  }

  /** Group g in the array, with its list ns, and the same group as a value. */
  ghost predicate Shows(row: Row, ns: seq<ClientNode>, value: Group, g: nat)
    reads ns
  {
    IsList(row.head, ns, g) && value == Group(row.status, row.jobId, Fds(ns))
  }

  ghost function Fds(ns: seq<ClientNode>): (fds: seq<int>)
    ensures |fds| == |ns| && forall i :: 0 <= i < |ns| ==> fds[i] == ns[i].fd
  {
    seq(|ns|, i requires 0 <= i < |ns| => ns[i].fd)
  }

  // ---- client_algo.c ----

  class ClientTable {
    const slots: array<Slot>

    ghost predicate Valid() { slots.Length == MAX_NUMBER_OF_CLIENTS }

    /** initialize_client_array, over memory that starts zeroed. */
    constructor ()
      ensures Valid() && fresh(slots)
      ensures forall i :: 0 <= i < MAX_NUMBER_OF_CLIENTS ==> slots[i] == Slot(-1, FREE, 0, [])
    {
      slots := new Slot[MAX_NUMBER_OF_CLIENTS](_ => Slot(-1, FREE, 0, []));
    }

    method AddClient(fd: nat, groups: seq<int>) returns (code: int)
      requires Valid()
      modifies slots
      ensures (slots[..], code) == JobTables.AddClient(old(slots[..]), fd, groups)
    {
      var i := HashFunc(fd);
      if slots[i].fd == -1 {
        slots[i] := slots[i].(fd := fd, joined := groups);
        code := 0;
      } else {
        code := -1;
      }
    }

    method RemoveClient(fd: nat) returns (code: int)
      requires Valid()
      modifies slots
      ensures (slots[..], code) == JobTables.RemoveClient(old(slots[..]), fd)
    {
      var i := HashFunc(fd);
      if slots[i].fd == fd {
        slots[i] := slots[i].(fd := -1, joined := []);
        code := 0;
      } else {
        code := -1;
      }
    }

    /** The body of the loop of update_client_with_job_assigned. */
    method MarkIfPresent(fd: nat, present: bool, job: int, ghost chosen: seq<int>)
      requires Valid() && (present <==> fd in chosen)
      modifies slots
      ensures slots[..] == MarkOne(old(slots[..]), fd, chosen, job)
    {
      if present {
        var i := HashFunc(fd);
        if slots[i].fd == fd {
          slots[i] := slots[i].(jobId := job, status := BUSY);
        }
      }
    }

    /** The test of both walks of find_free_clients_in_a_group. */
    method Selects(fd: nat) returns (selected: bool)
      requires Valid()
      ensures selected == IsFree(slots[..], fd)
    {
      var i := HashFunc(fd);
      selected := slots[i].fd == fd && slots[i].status == FREE;
    }

    /** update_client_status_to_free */
    method UpdateClientStatusToFree(fd: nat, job: int)
      requires Valid()
      modifies slots
      ensures slots[..] == FreeSlot(old(slots[..]), fd, job)
      ensures forall i :: 0 <= i < slots.Length ==>
                slots[i] == if i == HashFunc(fd) && old(slots[i]).fd == fd && old(slots[i]).jobId == job
                            then old(slots[i]).(status := FREE) else old(slots[i])
    {
      var i := HashFunc(fd);
      if slots[i].fd == fd {
        if slots[i].jobId == job {
          slots[i] := slots[i].(status := FREE);
        }
      }
    }
  }

  // ---- group_algo.c ----

  class GroupTable {
    const rows: array<Row>
    ghost var lists: seq<seq<ClientNode>>
    ghost var nodes: set<ClientNode>
    ghost var contents: seq<Group>  // the table as a value

    /** Every group has its own list; the lists share no node. */
    ghost predicate Valid()
      reads this, rows, nodes
      ensures Valid() ==> FullSize(contents)
    {
      && rows.Length == NUMBER_OF_GROUPS == |lists| == |contents|
      && (forall g, k :: 0 <= g < NUMBER_OF_GROUPS && 0 <= k < |lists[g]| ==> lists[g][k] in nodes)
      && (forall g :: 0 <= g < NUMBER_OF_GROUPS ==> Shows(rows[g], lists[g], contents[g], g))
    }

    /** No node stands in two lists, nor twice in one. */
    lemma ListsShareNothing(g: nat, i: nat, h: nat, j: nat)
      requires Valid() && g < NUMBER_OF_GROUPS && h < NUMBER_OF_GROUPS
      requires i < |lists[g]| && j < |lists[h]| && lists[g][i] == lists[h][j]
      ensures g == h && i == j
    {
      assert Shows(rows[g], lists[g], contents[g], g) && Shows(rows[h], lists[h], contents[h], h);
    }

    lemma RowIs(g: nat)
      requires Valid() && g < NUMBER_OF_GROUPS
      ensures rows[g].jobId == contents[g].jobId && rows[g].status == contents[g].status
      ensures rows[g].head == null <==> contents[g].members == []
      ensures Fds(lists[g]) == contents[g].members
    {
      assert Shows(rows[g], lists[g], contents[g], g);
    }

    /** initialize_group_array */
    constructor ()
      ensures Valid() && fresh(rows) && nodes == {}
      ensures contents == seq(NUMBER_OF_GROUPS, _ => Group(FREE, -1, []))
    {
      rows := new Row[NUMBER_OF_GROUPS](_ => Row(FREE, -1, 0, null));
      lists := seq(NUMBER_OF_GROUPS, _ => []);
      contents := seq(NUMBER_OF_GROUPS, _ => Group(FREE, -1, []));
      nodes := {};
    }

    /** What Valid says of the groups other than g. */
    ghost predicate ValidBut(g: nat)
      reads this, rows, nodes
    {
      && rows.Length == NUMBER_OF_GROUPS == |lists| == |contents|
      && (forall h, k :: 0 <= h < NUMBER_OF_GROUPS && 0 <= k < |lists[h]| ==> lists[h][k] in nodes)
      && (forall h :: 0 <= h < NUMBER_OF_GROUPS && h != g ==> Shows(rows[h], lists[h], contents[h], h))
    }

    /** The nodes made for group g are in no other list. */
    twostate lemma OthersStay(g: nat)
      requires old(Valid()) && unchanged(this) && unchanged(rows)
      requires forall node :: node in nodes && node.home != g ==> node.next == old(node.next)
      ensures ValidBut(g)
    {
      forall h | 0 <= h < NUMBER_OF_GROUPS && h != g ensures Shows(rows[h], lists[h], contents[h], h) {
        assert old(Shows(rows[h], lists[h], contents[h], h));
        assert forall k :: 0 <= k < |lists[h]| ==> lists[h][k].home != g;
      }
    }

    /** Group g gets a new row and a new list. */
    method Store(g: nat, row: Row, ghost ns: seq<ClientNode>, ghost value: Group, ghost more: set<ClientNode>)
      requires g < NUMBER_OF_GROUPS && ValidBut(g) && Shows(row, ns, value, g)
      requires forall k :: 0 <= k < |ns| ==> ns[k] in nodes + more
      modifies this, rows
      ensures Valid() && contents == old(contents)[g := value] && nodes == old(nodes) + more
    {
      rows[g] := row;
      lists := lists[g := ns];
      contents := contents[g := value];
      nodes := nodes + more;
    }

    /** One round of add_a_client_to_groups. */
    method AddToOne(fd: int, g: nat)
      requires Valid() && g < NUMBER_OF_GROUPS
      modifies this, rows
      ensures Valid() && fresh(nodes - old(nodes))
      ensures contents == old(contents)[g := Joined(old(contents)[g], fd)]
    {
      var row := rows[g];
      assert Shows(row, lists[g], contents[g], g);
      var client := LinkFirst(row.head, fd, lists[g], g);
      OthersStay(g);
      Store(g, row.(count := row.count + 1, head := client), [client] + lists[g], Joined(contents[g], fd), {client});
    }

    method AddAClientToGroups(fd: int, groups: seq<int>)
      requires Valid() && InRange(groups)
      modifies this, rows
      ensures Valid() && fresh(nodes - old(nodes))
      ensures contents == AddToGroups(old(contents), fd, groups)
    {
      var i := 0;
      assert groups[0..] == groups;
      while i < |groups|
        invariant 0 <= i <= |groups| && Valid() && fresh(nodes - old(nodes))
        invariant AddToGroups(contents, fd, groups[i..]) == AddToGroups(old(contents), fd, groups)
      {
        assert groups[i..][1..] == groups[i + 1..];
        AddToOne(fd, groups[i]);
        i := i + 1;
      }
    }

    /** One round of remove_client_from_groups: at most one node is unlinked. */
    method RemoveFromOne(fd: int, g: nat)
      requires Valid() && g < NUMBER_OF_GROUPS
      modifies this, rows, nodes
      ensures Valid() && nodes == old(nodes)
      ensures contents == old(contents)[g := Parted(old(contents)[g], fd)]
    {
      var row := rows[g];
      assert Shows(row, lists[g], contents[g], g);
      if row.head != null {
        var head, ns := Unlink(row.head, fd, lists[g], g);
        OthersStay(g);
        Store(g, row.(head := head), ns, Parted(contents[g], fd), {});
      }
    }

    method RemoveClientFromGroups(fd: int, groups: seq<int>)
      requires Valid() && InRange(groups)
      modifies this, rows, nodes
      ensures Valid() && nodes == old(nodes)
      ensures contents == RemoveFromGroups(old(contents), fd, groups)
    {
      var i := 0;
      assert groups[0..] == groups;
      while i < |groups|
        invariant 0 <= i <= |groups| && Valid() && nodes == old(nodes)
        invariant RemoveFromGroups(contents, fd, groups[i..]) == RemoveFromGroups(old(contents), fd, groups)
      {
        assert groups[i..][1..] == groups[i + 1..];
        RemoveFromOne(fd, groups[i]);
        i := i + 1;
      }
    }

    method FindFreeGroup() returns (g: int)
      requires Valid()
      ensures g == JobTables.FindFreeGroup(contents, 0)
      ensures g == -1 || (0 <= g < NUMBER_OF_GROUPS && contents[g].status == FREE && contents[g].members != [])
      ensures forall k :: 0 <= k < NUMBER_OF_GROUPS && (g == -1 || k < g) ==>
                contents[k].status == BUSY || contents[k].members == []
    {
      var i := 0;
      while i < NUMBER_OF_GROUPS
        invariant 0 <= i <= NUMBER_OF_GROUPS
        invariant JobTables.FindFreeGroup(contents, i) == JobTables.FindFreeGroup(contents, 0)
      {
        assert Available(contents[i]) <==> rows[i].status == FREE && rows[i].head != null;
        if rows[i].status == FREE && rows[i].head != null {
          return i;
        }
        i := i + 1;
      }
      return -1;
    }

    /** find_free_clients_in_a_group: one walk counts, the next fills an array of that size. A
        group with an empty list is not given a result, so its caller must not ask. */
    method FindFreeClients(g: nat, table: ClientTable) returns (size: nat, free: array<int>)
      requires Valid() && table.Valid() && g < NUMBER_OF_GROUPS && rows[g].head != null
      requires forall k :: 0 <= k < |lists[g]| ==> lists[g][k].fd >= 0
      ensures fresh(free) && size == free.Length
      ensures free[..] == FreeMembers(table.slots[..], contents[g].members)
    {
      size := CountFree(rows[g].head, table, lists[g], g);
      free := new int[size];
      CollectFree(rows[g].head, table, free, lists[g], g);
    }

    /** update_group_with_job_assigned */
    method UpdateGroupWithJobAssigned(g: nat, job: int)
      requires Valid() && g < NUMBER_OF_GROUPS
      modifies this`contents, rows
      ensures Valid() && contents == TakeGroup(old(contents), g, job)
      ensures contents == old(contents)[g := Group(BUSY, job, old(contents)[g].members)]
    {
      contents := TakeGroup(contents, g, job);
      rows[g] := rows[g].(jobId := job, status := BUSY);
    }

    /** update_group_status_to_free */
    method UpdateGroupStatusToFree(g: nat, job: int)
      requires Valid() && g < NUMBER_OF_GROUPS
      modifies this`contents, rows
      ensures Valid() && contents == FreeGroup(old(contents), g, job)
      ensures old(contents)[g].jobId == job ==>
                contents == old(contents)[g := Group(FREE, job, old(contents)[g].members)]
      ensures old(contents)[g].jobId != job ==> contents == old(contents)
    {
      contents := FreeGroup(contents, g, job);
      if rows[g].jobId == job {
        rows[g] := rows[g].(status := FREE);
      }
    }

    /** is_client_present */
    static method IsClientPresent(fd: int, picked: array<int>, size: nat) returns (present: bool)
      requires size <= picked.Length
      ensures present <==> fd in picked[..size]
    {
      var i := 0;
      while i < size
        invariant 0 <= i <= size && fd !in picked[..i]
      {
        if picked[i] == fd {
          return true;
        }
        i := i + 1;
      }
      return false;
    }

    method UpdateClientWithJobAssigned(job: int, g: nat, picked: array<int>, size: nat, table: ClientTable)
      requires Valid() && table.Valid() && g < NUMBER_OF_GROUPS && size <= picked.Length
      requires forall k :: 0 <= k < |lists[g]| ==> lists[g][k].fd >= 0
      modifies table.slots
      ensures table.slots[..] == MarkBusy(old(table.slots[..]), contents[g].members, picked[..size], job)
    {
      ghost var ns, fds, chosen := lists[g], Fds(lists[g]), picked[..size];
      ghost var goal := MarkBusy(table.slots[..], fds, chosen, job);
      var curr := rows[g].head;
      ghost var k := 0;
      assert fds[0..] == fds;
      while curr != null
        invariant 0 <= k <= |ns| && curr == if k < |ns| then ns[k] else null
        invariant MarkBusy(table.slots[..], fds[k..], chosen, job) == goal
        decreases |ns| - k
      {
        var present := IsClientPresent(curr.fd, picked, size);
        MarkNext(table.slots[..], fds, k, chosen, job);
        table.MarkIfPresent(curr.fd, present, job, chosen);
        curr := curr.next;
        k := k + 1;
      }
    }
  }

  lemma MarkNext(slots: seq<Slot>, fds: seq<int>, k: nat, chosen: seq<int>, job: int)
    requires |slots| == MAX_NUMBER_OF_CLIENTS && k < |fds|
    ensures MarkBusy(slots, fds[k..], chosen, job)
              == MarkBusy(MarkOne(slots, fds[k], chosen, job), fds[k + 1..], chosen, job)
  {
    assert fds[k..][1..] == fds[k + 1..];
  }

  /** A new node before the first one. */
  method LinkFirst(head: ClientNode?, fd: int, ghost ns: seq<ClientNode>, ghost g: nat) returns (client: ClientNode)
    requires IsList(head, ns, g)
    ensures fresh(client) && IsList(client, [client] + ns, g) && Fds([client] + ns) == [fd] + Fds(ns)
  {
    client := new ClientNode(fd, g);
    if head != null {
      client.next := head;
    }
  }

  /** Lines 69-70: the node after prev, the k-th of the list, is taken out. */
  method UnlinkNext(prev: ClientNode, ghost ns: seq<ClientNode>, ghost k: nat, ghost g: nat)
    returns (ghost ns': seq<ClientNode>)
    requires k + 1 < |ns| && prev == ns[k] && IsList(ns[0], ns, g)
    modifies prev, ns[k + 1]
    ensures ns' == ns[..k + 1] + ns[k + 2..] && IsList(ns[0], ns', g)
  {
    var current := prev.next;
    prev.next := current.next;
    current.next := null;
    ns' := ns[..k + 1] + ns[k + 2..];
  }

  /** The walk of lines 65-78: the node before the first one that holds fd. */
  method FindBefore(head: ClientNode, fd: int, ghost ns: seq<ClientNode>, ghost g: nat)
    returns (prev: ClientNode?, ghost k: nat)
    requires IsList(head, ns, g) && head.fd != fd
    ensures prev == null ==> fd !in Fds(ns)
    ensures prev != null ==> k + 1 < |ns| && prev == ns[k] && Fds(ns)[k + 1] == fd && fd !in Fds(ns)[..k + 1]
  {
    ghost var fds := Fds(ns);
    var node := head;
    var current := node.next;
    k := 0;
    while current != null
      invariant 0 <= k < |ns| && node == ns[k]
      invariant current == if k + 1 < |ns| then ns[k + 1] else null
      invariant fd !in fds[..k + 1]
      decreases |ns| - k
    {
      if current.fd == fd {
        return node, k;
      }
      node := current;
      k := k + 1;
      assert fds[..k + 1] == fds[..k] + [fds[k]];
      current := node.next;
    }
    assert fds[..k + 1] == fds;
    return null, k;
  }

  /** Lines 58-60: the first node is taken out. */
  method UnlinkHead(head: ClientNode, ghost ns: seq<ClientNode>, ghost g: nat) returns (head': ClientNode?)
    requires IsList(head, ns, g)
    modifies head
    ensures IsList(head', ns[1..], g)
  {
    head' := head.next;
    head.next := null;
  }

  ghost predicate Among(some: seq<ClientNode>, all: seq<ClientNode>) {
    forall i :: 0 <= i < |some| ==> some[i] in all
  }

  lemma CutIsAmong(ns: seq<ClientNode>, k: nat)
    requires k < |ns|
    ensures Among(ns[..k] + ns[k + 1..], ns)
  {
  }

  lemma FdsOfCut(ns: seq<ClientNode>, k: nat)
    requires k < |ns|
    ensures Fds(ns[..k] + ns[k + 1..]) == Fds(ns)[..k] + Fds(ns)[k + 1..]
  {
    var cut := ns[..k] + ns[k + 1..];
    forall i | 0 <= i < |cut| ensures Fds(cut)[i] == (Fds(ns)[..k] + Fds(ns)[k + 1..])[i] {
      assert cut[i] == ns[if i < k then i else i + 1];
    }
  }

  lemma CutIsWithout(ns: seq<ClientNode>, fd: int, k: nat)
    requires k < |ns| && ns[k].fd == fd && fd !in Fds(ns)[..k]
    ensures Fds(ns[..k] + ns[k + 1..]) == Without(Fds(ns), fd)
    ensures Among(ns[..k] + ns[k + 1..], ns)
  {
    WithoutFirst(Fds(ns), fd, k);
    FdsOfCut(ns, k);
    CutIsAmong(ns, k);
  }

  lemma TailIsWithout(ns: seq<ClientNode>, fd: int)
    requires ns != [] && ns[0].fd == fd
    ensures Fds(ns[1..]) == Without(Fds(ns), fd) && Among(ns[1..], ns)
  {
    CutIsWithout(ns, fd, 0);
    assert ns[..0] + ns[0 + 1..] == ns[1..];
  }

  /** The inner part of remove_client_from_groups on one list that is not empty: the first
      node that holds fd, if any, is unlinked. */
  method Unlink(head: ClientNode, fd: int, ghost ns: seq<ClientNode>, ghost g: nat)
    returns (head': ClientNode?, ghost ns': seq<ClientNode>)
    requires IsList(head, ns, g)
    modifies ns
    ensures IsList(head', ns', g) && Fds(ns') == Without(Fds(ns), fd)
    ensures Among(ns', ns)
  {
    if head.fd == fd {
      TailIsWithout(ns, fd);
      head' := UnlinkHead(head, ns, g);
      ns' := ns[1..];
    } else {
      head' := head;
      ns' := UnlinkLater(head, fd, ns, g);
    }
  }

  /** Lines 63-79: the first node does not hold fd. */
  method UnlinkLater(head: ClientNode, fd: int, ghost ns: seq<ClientNode>, ghost g: nat)
    returns (ghost ns': seq<ClientNode>)
    requires IsList(head, ns, g) && head.fd != fd
    modifies ns
    ensures IsList(head, ns', g) && Fds(ns') == Without(Fds(ns), fd)
    ensures Among(ns', ns)
  {
    var prev, k := FindBefore(head, fd, ns, g);
    if prev == null {
      WithoutAbsent(Fds(ns), fd);
      ns' := ns;
    } else {
      CutIsWithout(ns, fd, k + 1);
      ns' := UnlinkNext(prev, ns, k, g);
    }
  }

  /** The first walk of find_free_clients_in_a_group. */
  method CountFree(head: ClientNode?, table: ClientTable, ghost ns: seq<ClientNode>, ghost g: nat) returns (count: nat)
    requires IsList(head, ns, g) && table.Valid() && forall k :: 0 <= k < |ns| ==> ns[k].fd >= 0
    ensures count == |FreeMembers(table.slots[..], Fds(ns))|
  {
    ghost var slots, fds := table.slots[..], Fds(ns);
    ghost var later := FreeMembers(slots, fds);
    var curr := head;
    ghost var k := 0;
    count := 0;
    assert fds[0..] == fds;
    while curr != null
      invariant 0 <= k <= |ns| && curr == if k < |ns| then ns[k] else null
      invariant later == FreeMembers(slots, fds[k..])
      invariant count + |later| == |FreeMembers(slots, fds)|
      decreases |ns| - k
    {
      later := FreeOfRest(slots, fds, k, later);
      var isFree := table.Selects(curr.fd);
      if isFree {
        count := count + 1;
      }
      curr := curr.next;
      k := k + 1;
    }
  }

  /** Its second walk. */
  method CollectFree(head: ClientNode?, table: ClientTable, free: array<int>, ghost ns: seq<ClientNode>, ghost g: nat)
    requires IsList(head, ns, g) && table.Valid() && forall k :: 0 <= k < |ns| ==> ns[k].fd >= 0
    requires free.Length == |FreeMembers(table.slots[..], Fds(ns))|
    modifies free
    ensures free[..] == FreeMembers(table.slots[..], Fds(ns))
  {
    ghost var slots, fds := table.slots[..], Fds(ns);
    ghost var later := FreeMembers(slots, fds);
    var curr := head;
    ghost var k := 0;
    var j := 0;
    assert fds[0..] == fds;
    while curr != null
      invariant 0 <= k <= |ns| && curr == if k < |ns| then ns[k] else null
      invariant later == FreeMembers(slots, fds[k..])
      invariant 0 <= j && j + |later| == free.Length && free[..j] + later == FreeMembers(slots, fds)
      decreases |ns| - k
    {
      later := FreeOfRest(slots, fds, k, later);
      var isFree := table.Selects(curr.fd);
      if isFree {
        StoreAt(free, j, curr.fd, later);
        j := j + 1;
      }
      curr := curr.next;
      k := k + 1;
    }
  }

  method StoreAt(free: array<int>, j: nat, fd: int, ghost later: seq<int>)
    requires j < free.Length
    modifies free
    ensures free[..j + 1] + later == old(free[..j]) + ([fd] + later)
  {
    free[j] := fd;
    assert free[..j + 1] == free[..j] + [fd];
  }

  /** What the walk selects from node k on, now, and from the next one on, later. */
  lemma FreeOfRest(slots: seq<Slot>, fds: seq<int>, k: nat, now: seq<int>) returns (later: seq<int>)
    requires |slots| == MAX_NUMBER_OF_CLIENTS && k < |fds| && now == FreeMembers(slots, fds[k..])
    ensures later == FreeMembers(slots, fds[k + 1..])
    ensures now == if IsFree(slots, fds[k]) then [fds[k]] + later else later
  {
    assert fds[k..][1..] == fds[k + 1..];
    later := FreeMembers(slots, fds[k + 1..]);
  }
}
