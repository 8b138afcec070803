/** A job's chunk from the server's socket to the client's disk: the bytes of client_Handler,
    in whatever pieces they are read, through the client's reassembler and its file handlers. */
module JobTransfer {
  import opened TlvWire
  import opened TlvMachine
  import opened TlvAssembler
  import opened FileTransfer

  /** The position of the first order to execute a job. */
  function OrderAt(calls: seq<Frame>): (k: nat)
    ensures k <= |calls| && (k < |calls| ==> calls[k].kind == EXECUTE_JOB_ID)
    ensures forall i :: 0 <= i < k ==> calls[i].kind != EXECUTE_JOB_ID
  {
    if calls == [] || calls[0].kind == EXECUTE_JOB_ID then 0 else 1 + OrderAt(calls[1..])
  }

  lemma OrderAtIs(calls: seq<Frame>, k: nat)
    requires k < |calls| && calls[k].kind == EXECUTE_JOB_ID
    requires forall i :: 0 <= i < k ==> calls[i].kind != EXECUTE_JOB_ID
    ensures OrderAt(calls) == k
  {
  }

  lemma {:induction false} DeliverLast(files: Files, fs: seq<Frame>, k: nat)
    requires k < |fs| && Deliverable(fs)
    ensures Deliverable(fs[..k]) && Deliverable(fs[..k + 1])
    ensures DeliverAll(files, fs[..k + 1]) == Deliver(DeliverAll(files, fs[..k]), fs[k])
    decreases k
  {
    if k > 0 {
      DeliverFirst(files, fs, k);
      DeliverFirst(files, fs, k + 1);
      assert Deliverable(fs[1..]);
      DeliverLast(Deliver(files, fs[0]), fs[1..], k - 1);
      assert fs[1..][..k] == fs[1..][..k + 1 - 1];
    } else {
      assert fs[..1] == [fs[0]] && fs[..1][1..] == [];
    }
  }

  /** The callbacks of the client for the calls up to the first order. */
  method Perform(store: FileStore, calls: seq<Frame>) returns (k: nat)
    requires Deliverable(calls)
    modifies store
    ensures k == OrderAt(calls) && Deliverable(calls[..k])
    ensures store.files == DeliverAll(old(store.files), calls[..k])
  {
    k := 0;
    assert calls[..0] == [];
    while k < |calls| && calls[k].kind != EXECUTE_JOB_ID
      invariant k <= |calls| && Deliverable(calls[..k])
      invariant forall i :: 0 <= i < k ==> calls[i].kind != EXECUTE_JOB_ID
      invariant store.files == DeliverAll(old(store.files), calls[..k])
    {
      DeliverLast(old(store.files), calls, k);
      assert calls[k] in calls;
      if calls[k].kind == FILE_WRITE {
        store.HandleFileWrite(calls[k].payload);
      } else if calls[k].kind == FILE_APPEND {
        store.HandleFileAppend(calls[k].payload);
      }
      k := k + 1;
    }
    if k < |calls| {
      OrderAtIs(calls, k);
    }
  }

  /** process_job, from its first read to its first order; order is the call at which it stops
      if there is one. */
  method ReceiveJob(store: FileStore, cuts: seq<seq<byte>>) returns (calls: seq<Frame>, k: nat)
    requires (forall b :: b in cuts ==> |b| <= TLV_BUFF_SIZE) && Deliverable(Session(Idle, cuts).frames)
    modifies store
    ensures calls == Session(Idle, cuts).frames && k == OrderAt(calls)
    ensures Deliverable(calls[..k]) && store.files == DeliverAll(old(store.files), calls[..k])
  {
    var lost;
    calls, lost := ProcessReads(cuts);
    k := Perform(store, calls);
  }

  /** From the bytes that client_Handler sends to the client's disk. In whatever pieces they
      are read, as long as no read holds a late body, the first order the client sees is
      the one it was sent, and at that call its target is the file, for every file that is
      not empty and whatever files it had. */
  lemma TransferEndToEnd(files: Files, file: seq<byte>, jobId: nat, operation: nat, cuts: seq<seq<byte>>)
    requires jobId < 0x8000_0000 && operation < 0x8000_0000 && file != []
    requires forall f :: f in JobFrames(file, jobId, operation) ==> Sendable(f)
    requires Concat(cuts) == EncodeAll(JobFrames(file, jobId, operation)) && NoEnd(cuts) && NoLateBody([], cuts)
    ensures var calls := Session(Idle, cuts).frames;
            var k := OrderAt(calls);
            && Session(Idle, cuts) == Fed(calls, Idle) && Deliverable(calls) && Deliverable(calls[..k])
            && k == |calls| - 1 && calls[k] == ExecuteFrame(jobId, operation)
            && ContentOf(DeliverAll(files, calls[..k]), TARGET) == file
            && forall name :: name != TARGET ==> Unchanged(files, DeliverAll(files, calls[..k]), name)
  {
    var fs := JobFrames(file, jobId, operation);
    SessionWithoutEnd(Idle, cuts);
    TransferCalls(file, jobId, operation, cuts);
    JobFramesSmall(file, jobId, operation);
    TransferRebuildsFile(files, file, jobId, operation);
    assert Before(fs) == fs[..|fs| - 1];
    forall i | 0 <= i < |fs| - 1 ensures fs[i].kind != EXECUTE_JOB_ID {
      assert fs[i] == Before(fs)[i];
    }
    OrderAtIs(fs, |fs| - 1);
    forall name | name != TARGET ensures Unchanged(files, DeliverAll(files, Before(fs)), name) {
      ChunksTouchTarget(files, file, 0, name);
      assert Before(fs) == ChunkFrames(file, 0);
    }
  }

  predicate Unchanged(files: Files, files': Files, name: seq<byte>) {
    (name in files' <==> name in files) && (name in files ==> files'[name] == files[name])
  }

  lemma {:induction false} ChunksTouchTarget(files: Files, file: seq<byte>, i: nat, name: seq<byte>)
    requires name != TARGET
    ensures Deliverable(ChunkFrames(file, i))
    ensures Unchanged(files, DeliverAll(files, ChunkFrames(file, i)), name)
    decreases |file| - i
  {
    ChunkFramesSmall(file, i);
    if i < |file| {
      var f := ChunkFrame(file, i);
      assert f.payload[..NAME_SIZE] == NAME;
      NameIsTarget();
      DeliverEffect(files, f, name);
      ChunksTouchTarget(Deliver(files, f), file, i + FILE_CHUNK, name);
      assert ChunkFrames(file, i)[1..] == ChunkFrames(file, i + FILE_CHUNK);
    }
  }

  /** The same with the programs themselves: the sender, the reads, the handlers. The network
      delivers what was sent, in pieces that the precondition describes before it is. */
  method ShipJob(store: FileStore, file: seq<byte>, jobId: nat, operation: nat, cuts: seq<seq<byte>>)
    returns (order: Frame)
    requires jobId < 0x8000_0000 && operation < 0x8000_0000 && file != []
    requires forall f :: f in JobFrames(file, jobId, operation) ==> Sendable(f)
    requires Concat(cuts) == EncodeAll(JobFrames(file, jobId, operation)) && NoEnd(cuts) && NoLateBody([], cuts)
    requires forall b :: b in cuts ==> |b| <= TLV_BUFF_SIZE
    modifies store
    ensures order == ExecuteFrame(jobId, operation) && ContentOf(store.files, TARGET) == file
    ensures forall name :: name != TARGET ==> Unchanged(old(store.files), store.files, name)
  {
    var sent := ClientHandler(file, jobId, operation);
    assert Concat(cuts) == sent;
    TransferEndToEnd(store.files, file, jobId, operation, cuts);
    var calls, k := ReceiveJob(store, cuts);
    order := calls[k];
  }
}
