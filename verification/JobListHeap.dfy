/** job_code.c on the heap: a linked list of job records, extended at its head. */
module JobListHeap {
  import opened JobTables

  class JobRecord {
    const id: int
    const operation: int
    var group: int
    var clients: int
    var status: JobStatus
    var result: int
    var next: JobRecord?

    constructor (id: int, operation: int)
      ensures Value() == Job(id, operation, 0, 0, NOT_STARTED, -1) && next == null
    {
      this.id := id;
      this.operation := operation;
      group := 0;
      clients := 0;
      status := NOT_STARTED;
      result := -1;
      next := null;
    }

    function Value(): Job
      reads this
    {
      Job(id, operation, group, clients, status, result)
    }

    method Start(group: int, clients: int)
      modifies this
      ensures Value() == Started(old(Value()), group, clients) && next == old(next)
    {
      this.group := group;
      this.status := IN_PROGRESS;
      this.clients := clients;
    }

    method Complete(result: int)
      modifies this
      ensures Value() == Completed(old(Value()), result) && next == old(next)
    {
      this.status := COMPLETE;
      this.result := result;
    }
  }

  class JobList {
    var head: JobRecord?
    ghost var nodes: seq<JobRecord>
    ghost var contents: seq<Job>  // the list as a value

    ghost predicate Valid()
      reads this, nodes
    {
      && head == (if nodes == [] then null else nodes[0])
      && (forall i, j :: 0 <= i < j < |nodes| ==> nodes[i] != nodes[j])
      && (forall i :: 0 <= i < |nodes| - 1 ==> nodes[i].next == nodes[i + 1])
      && (nodes != [] ==> nodes[|nodes| - 1].next == null)
      && |contents| == |nodes|
      && (forall i :: 0 <= i < |nodes| ==> contents[i] == nodes[i].Value())
    }

    constructor ()
      ensures Valid() && contents == []
    {
      head := null;
      nodes := [];
      contents := [];
    }

    method AddJob(id: int, operation: int) returns (code: int)
      requires Valid()
      modifies this
      ensures Valid() && code == 0 && contents == JobTables.AddJob(old(contents), id, operation)
      ensures fresh(nodes[0]) && nodes == [nodes[0]] + old(nodes)
    {
      var job := new JobRecord(id, operation);
      if head == null {
        head := job;
        head.next := null;
      } else {
        job.next := head;
        head := job;
      }
      nodes := [job] + nodes;
      contents := JobTables.AddJob(contents, id, operation);
      return 0;
    }

    /** The walk that every function below makes; past the end of the list the source would
        follow a null pointer, so its callers must know that the job is listed. */
    method Walk(id: int) returns (curr: JobRecord)
      requires Valid() && Has(contents, id)
      ensures curr == nodes[Find(contents, id)]
    {
      var node := head;
      ghost var k := 0;
      while node.id != id
        invariant 0 <= k < |nodes| && node == nodes[k]
        invariant k <= Find(contents, id)
        decreases |nodes| - k
      {
        assert contents[k] == nodes[k].Value();
        node := node.next;
        k := k + 1;
      }
      assert contents[k] == nodes[k].Value();
      curr := node;
    }

    method GetGroupIdFromJob(id: int) returns (group: int)
      requires Valid() && (head != null ==> Has(contents, id))
      ensures group == if nodes == [] then -1 else Get(contents, id).group
    {
      if head == null {
        return -1;
      }
      var curr := Walk(id);
      assert curr.Value() == Get(contents, id);
      group := curr.group;
    }

    method GetJobOpFromId(id: int) returns (operation: int)
      requires Valid() && (head != null ==> Has(contents, id))
      ensures operation == if nodes == [] then -1 else Get(contents, id).operation
    {
      if head == null {
        return -1;
      }
      var curr := Walk(id);
      assert curr.Value() == Get(contents, id);
      operation := curr.operation;
    }

    method UpdateJobStatusAndGroup(id: int, group: int, clients: int) returns (code: int)
      requires Valid() && (head != null ==> Has(contents, id))
      modifies this`contents, nodes
      ensures Valid() && nodes == old(nodes) && code == if nodes == [] then -1 else 0
      ensures contents == if nodes == [] then []
                          else Put(old(contents), id, Started(Get(old(contents), id), group, clients))
    {
      if head == null {
        return -1;
      }
      var curr := Walk(id);
      contents := Put(contents, id, Started(Get(contents, id), group, clients));
      curr.Start(group, clients);
      return 0;
    }

    /** On an empty list the source returns -1 as a bool, which is true. */
    method TimeToComputeFinalResult(id: int, results: int) returns (ready: bool)
      requires Valid() && (head != null ==> Has(contents, id))
      ensures ready <==> nodes == [] || Get(contents, id).clients == results
    {
      if head == null {
        return true;
      }
      var curr := Walk(id);
      assert curr.Value() == Get(contents, id);
      return curr.clients == results;
    }

    method UpdateJobStatusToCompleted(id: int, result: int) returns (code: int)
      requires Valid() && (head != null ==> Has(contents, id))
      modifies this`contents, nodes
      ensures Valid() && nodes == old(nodes) && code == if nodes == [] then -1 else 0
      ensures contents == if nodes == [] then [] else Put(old(contents), id, Completed(Get(old(contents), id), result))
    {
      if head == null {
        return -1;
      }
      var curr := Walk(id);
      contents := Put(contents, id, Completed(Get(contents, id), result));
      curr.Complete(result);
      return 0;
    }
  }
}
