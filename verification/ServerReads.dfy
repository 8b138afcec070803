/** What reaches the server from a client: the bytes of one read, through a fresh TLV state and
    the callbacks, into the tables. */
module ServerReads {
  import opened TlvWire
  import opened TlvMachine
  import opened TlvAssembler
  import opened FileTransfer
  import opened Messages
  import opened JobTables
  import opened JobProtocol
  import opened JobServer

  /** The callback of the call finds what it needs: whole ints and a client that may register,
      or a result that is awaited. */
  predicate Callable(s: State, fd: nat, call: Frame) {
    && (call.kind == 3 ==> |call.payload| % 4 == 0 && Enabled(s, Register(fd, ReadInts(call.payload))))
    && (call.kind == 6 ==>
          |call.payload| >= 8 && Enabled(s, Reply(fd, ReadPair(call.payload).1, ReadPair(call.payload).0)))
  }

  /** What a call from client fd does to the tables: a registration and a result are steps of
      the protocol, and the handlers of the other types do not touch them. */
  function CallNext(s: State, fd: nat, call: Frame): State
    requires Callable(s, fd, call)
  {
    if call.kind == 3 then Next(s, Register(fd, ReadInts(call.payload)))
    else if call.kind == 6 then Next(s, Reply(fd, ReadPair(call.payload).1, ReadPair(call.payload).0))
    else s
  }

  predicate AllCallable(s: State, fd: nat, calls: seq<Frame>)
    decreases calls
  {
    calls == [] || (Callable(s, fd, calls[0]) && AllCallable(CallNext(s, fd, calls[0]), fd, calls[1..]))
  }

  function CallsNext(s: State, fd: nat, calls: seq<Frame>): State
    requires AllCallable(s, fd, calls)
    decreases calls
  {
    if calls == [] then s else CallsNext(CallNext(s, fd, calls[0]), fd, calls[1..])
  }

  method Registration(server: Server, fd: nat, payload: seq<byte>)
    requires server.Valid() && |payload| % 4 == 0 && Enabled(server.View(), Register(fd, ReadInts(payload)))
    modifies server.groups, server.groups.rows, server.clients.slots
    ensures server.Valid() && server.View() == Next(old(server.View()), Register(fd, ReadInts(payload)))
  {
    var groups, j := ReadGroups(payload);
    server.HandleGroupIdRegs(fd, groups[..]);
  }

  /** The callback of one call. */
  method Callback(server: Server, fd: nat, call: Frame)
    requires server.Valid() && Callable(server.View(), fd, call)
    modifies server`results, server.groups, server.groups.rows, server.clients.slots
    modifies server.jobs`contents, server.jobs.nodes
    ensures server.Valid() && server.View() == CallNext(old(server.View()), fd, call)
  {
    if call.kind == REGISTER_GROUPS {
      Registration(server, fd, call.payload);
    } else if call.kind == RESULT {
      server.HandleResult(fd, ReadInt(call.payload[..4]), ReadInt(call.payload[4..8]));
    }
  }

  lemma CallsStep(s: State, fd: nat, calls: seq<Frame>, i: nat)
    requires i < |calls| && AllCallable(s, fd, calls[i..])
    ensures Callable(s, fd, calls[i]) && AllCallable(CallNext(s, fd, calls[i]), fd, calls[i + 1..])
    ensures CallsNext(s, fd, calls[i..]) == CallsNext(CallNext(s, fd, calls[i]), fd, calls[i + 1..])
  {
    assert calls[i..][0] == calls[i] && calls[i..][1..] == calls[i + 1..];
  }

  method Callbacks(server: Server, fd: nat, calls: seq<Frame>)
    requires server.Valid() && AllCallable(server.View(), fd, calls)
    modifies server`results, server.groups, server.groups.rows, server.clients.slots
    modifies server.jobs`contents, server.jobs.nodes
    ensures server.Valid() && server.View() == CallsNext(old(server.View()), fd, calls)
  {
    var i := 0;
    assert calls[0..] == calls;
    ghost var goal := CallsNext(server.View(), fd, calls);
    while i < |calls|
      invariant 0 <= i <= |calls| && server.Valid() && server.jobs.nodes == old(server.jobs.nodes)
      invariant AllCallable(server.View(), fd, calls[i..]) && CallsNext(server.View(), fd, calls[i..]) == goal
    {
      CallsStep(server.View(), fd, calls, i);
      Callback(server, fd, calls[i]);
      i := i + 1;
    }
  }

  /** Lines 361-379: one read of a client's socket, into MAX_SIZE ints of four bytes. */
  method ReadClient(server: Server, fd: nat, b: seq<byte>)
    requires server.Valid() && |b| <= 4 * MAX_SIZE && Feed(Idle, b).Fed?
    requires AllCallable(server.View(), fd, Feed(Idle, b).frames)
    modifies server`results, server.groups, server.groups.rows, server.clients.slots
    modifies server.jobs`contents, server.jobs.nodes
    ensures server.Valid() && server.View() == CallsNext(old(server.View()), fd, Feed(Idle, b).frames)
  {
    var tlvs := new TlvState();
    var arrayReceived := new byte[4 * MAX_SIZE](_ => 0);
    var calls, lost := ProcessRead(tlvs, arrayReceived, b);
    Callbacks(server, fd, calls);
  }

  // ---- The client's two messages ----

  lemma WholeFrameCalls(f: Frame)
    requires Known(f.kind) && Sendable(f)
    ensures Feed(Idle, Encode(f)) == Fed([f], Idle)
  {
    var b, n := Encode(f), |f.payload|;
    assert b[1..5] == ToBe32(n) && b[5..] == f.payload;
    assert FeedIdle(b) == FeedBody(f.kind, n, [], f.payload);
    assert [] + f.payload[..n] == f.payload && f.payload[n..] == [];
    assert FeedIdle(f.payload[n..]) == Fed([], Idle);
  }

  lemma OneCall(s: State, fd: nat, f: Frame)
    requires Callable(s, fd, f)
    ensures AllCallable(s, fd, [f]) && CallsNext(s, fd, [f]) == CallNext(s, fd, f)
  {
    var calls := [f];
    assert calls[1..] == [];
  }

  /** A client that names its groups is registered with them: its program, the read and the
      callback together are the protocol's step Register. */
  method Join(server: Server, fd: nat, groups: seq<int>)
    requires server.Valid() && Enabled(server.View(), Register(fd, groups)) && HEADER + 4 * |groups| <= MAX_SIZE
    modifies server`results, server.groups, server.groups.rows, server.clients.slots
    modifies server.jobs`contents, server.jobs.nodes
    ensures server.Valid() && server.View() == Next(old(server.View()), Register(fd, groups))
  {
    GroupsAreInts(groups);
    var sent := SendGroups(groups);
    JoinCalls(server.View(), fd, groups);
    ReadClient(server, fd, sent);
  }

  lemma GroupsAreInts(groups: seq<int>)
    requires InRange(groups)
    ensures AllInt32(groups)
  {
  }

  lemma JoinCalls(s: State, fd: nat, groups: seq<int>)
    requires AllInt32(groups) && Enabled(s, Register(fd, groups)) && HEADER + 4 * |groups| <= MAX_SIZE
    ensures var b := Encode(RegisterFrame(groups));
            && |b| <= MAX_SIZE && Feed(Idle, b) == Fed([RegisterFrame(groups)], Idle)
            && AllCallable(s, fd, [RegisterFrame(groups)])
            && CallsNext(s, fd, [RegisterFrame(groups)]) == Next(s, Register(fd, groups))
  {
    IntsRoundTrip(groups);
    WholeFrameCalls(RegisterFrame(groups));
    OneCall(s, fd, RegisterFrame(groups));
  }

  /** A client that is told to execute a job on the numbers it was sent makes the protocol's
      step Reply: its handler, the read and the callback together record its answer. */
  method Answer(server: Server, fd: nat, jobId: nat, operation: nat, lines: seq<int>)
    requires server.Valid() && jobId < 0x8000_0000 && operation in {JOB_MIN, JOB_MAX} && lines != [] && AllInt32(lines)
    requires Enabled(server.View(), Reply(fd, jobId, Extreme(operation, lines)))
    modifies server`results, server.groups, server.groups.rows, server.clients.slots
    modifies server.jobs`contents, server.jobs.nodes
    ensures server.Valid()
    ensures server.View() == Next(old(server.View()), Reply(fd, jobId, Extreme(operation, lines)))
  {
    PairRoundTrip(jobId, operation);
    var sent := HandleExecuteJob(ExecuteFrame(jobId, operation).payload, lines);
    AnswerCalls(server.View(), fd, jobId, Extreme(operation, lines));
    ReadClient(server, fd, sent);
  }

  lemma AnswerCalls(s: State, fd: nat, job: int, value: int)
    requires Int32(value) && Int32(job) && Enabled(s, Reply(fd, job, value))
    ensures var f := ResultFrame(value, job);
            && |Encode(f)| <= MAX_SIZE && Feed(Idle, Encode(f)) == Fed([f], Idle)
            && AllCallable(s, fd, [f]) && CallsNext(s, fd, [f]) == Next(s, Reply(fd, job, value))
  {
    PairRoundTrip(value, job);
    WholeFrameCalls(ResultFrame(value, job));
    OneCall(s, fd, ResultFrame(value, job));
  }
}
