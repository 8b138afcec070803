/** The payloads that carry integers: a client's groups, the order to execute a job and
    the result that comes back. An int travels as four bytes, the highest first. */
module Messages {
  import opened TlvWire
  import opened TlvMachine
  import opened FileTransfer
  import opened JobTables
  import opened JobProtocol

  /** The values of a 32-bit int. */
  predicate Int32(v: int) { -0x8000_0000 <= v < 0x8000_0000 }
  predicate AllInt32(vs: seq<int>) { forall k :: 0 <= k < |vs| ==> Int32(vs[k]) }

  /** memcpy into an int, then ntohl. */
  function ReadInt(s: seq<byte>): (v: int)
    requires |s| == 4
    ensures Int32(v)
  {
    if Be32(s) < 0x8000_0000 then Be32(s) else Be32(s) - 0x1_0000_0000
  }

  /** htonl, then memcpy out of an int. */
  function IntBytes(v: int): (s: seq<byte>)
    requires Int32(v)
    ensures |s| == 4 && ReadInt(s) == v
  {
    ToBe32(v % 0x1_0000_0000)
  }

  lemma BytesOfInt(s: seq<byte>)
    requires |s| == 4
    ensures IntBytes(ReadInt(s)) == s
  {
    var n := Be32(s);
    assert ReadInt(s) % 0x1_0000_0000 == n;
    assert n / 0x100_0000 == s[0] as int;
    assert n / 0x1_0000 == (s[0] as int) * 0x100 + s[1] as int;
    assert n / 0x100 == (s[0] as int) * 0x1_0000 + (s[1] as int) * 0x100 + s[2] as int;
  }

  function IntsBytes(vs: seq<int>): (s: seq<byte>)
    requires AllInt32(vs)
    ensures |s| == 4 * |vs|
  {
    if vs == [] then [] else IntBytes(vs[0]) + IntsBytes(vs[1..])
  }

  function ReadInts(s: seq<byte>): (vs: seq<int>)
    requires |s| % 4 == 0
    ensures |vs| == |s| / 4 && AllInt32(vs)
  {
    if s == [] then [] else [ReadInt(s[..4])] + ReadInts(s[4..])
  }

  /** Every list of ints comes back from its bytes, and every payload of whole ints from
      what it is read as. */
  lemma {:induction false} IntsRoundTrip(vs: seq<int>)
    requires AllInt32(vs)
    ensures ReadInts(IntsBytes(vs)) == vs
  {
    if vs != [] {
      var s := IntsBytes(vs);
      assert s[..4] == IntBytes(vs[0]) && s[4..] == IntsBytes(vs[1..]);
      IntsRoundTrip(vs[1..]);
    }
  }

  lemma {:induction false} BytesRoundTrip(s: seq<byte>)
    requires |s| % 4 == 0
    ensures IntsBytes(ReadInts(s)) == s
  {
    if s != [] {
      BytesOfInt(s[..4]);
      BytesRoundTrip(s[4..]);
      assert ReadInts(s)[1..] == ReadInts(s[4..]);
      assert s == s[..4] + s[4..];
    }
  }

  lemma {:induction false} ReadIntsAppend(s: seq<byte>, t: seq<byte>)
    requires |s| % 4 == 0 && |t| == 4
    ensures ReadInts(s + t) == ReadInts(s) + [ReadInt(t)]
  {
    if s == [] {
      assert s + t == t && t[..4] == t && t[4..] == [];
    } else {
      assert (s + t)[..4] == s[..4] && (s + t)[4..] == s[4..] + t;
      ReadIntsAppend(s[4..], t);
    }
  }

  lemma {:induction false} IntsBytesAppend(vs: seq<int>, v: int)
    requires AllInt32(vs) && Int32(v)
    ensures IntsBytes(vs + [v]) == IntsBytes(vs) + IntBytes(v)
  {
    if vs == [] {
      assert [v][1..] == [];
    } else {
      assert (vs + [v])[1..] == vs[1..] + [v];
      IntsBytesAppend(vs[1..], v);
    }
  }

  // ---- Registration ----

  function RegisterFrame(groups: seq<int>): Frame
    requires AllInt32(groups)
  {
    Frame(REGISTER_GROUPS, IntsBytes(groups))
  }

  lemma NextInt(header: seq<byte>, vs: seq<int>, i: nat, was: seq<byte>, now: seq<byte>)
    requires i < |vs| && AllInt32(vs)
    requires was == header + IntsBytes(vs[..i]) && now == was + IntBytes(vs[i])
    ensures now == header + IntsBytes(vs[..i + 1])
  {
    IntsBytesAppend(vs[..i], vs[i]);
    assert vs[..i + 1] == vs[..i] + [vs[i]];
  }

  method PutGroup(sendBuff: array<byte>, groups: seq<int>, i: nat, ghost header: seq<byte>)
    requires i < |groups| && AllInt32(groups) && |header| == HEADER && HEADER + 4 * |groups| <= sendBuff.Length
    requires sendBuff[..HEADER + 4 * i] == header + IntsBytes(groups[..i])
    modifies sendBuff
    ensures sendBuff[..HEADER + 4 * (i + 1)] == header + IntsBytes(groups[..i + 1])
  {
    ghost var was := sendBuff[..HEADER + 4 * i];
    Memcpy(sendBuff, HEADER + i * 4, IntBytes(groups[i]));
    NextInt(header, groups, i, was, sendBuff[..HEADER + 4 * (i + 1)]);
  }

  /** The client's main, lines 115-133: what it sends once it has read its arguments. */
  method SendGroups(groups: seq<int>) returns (sent: seq<byte>)
    requires AllInt32(groups) && HEADER + 4 * |groups| <= MAX_SIZE
    ensures sent == Encode(RegisterFrame(groups))
  {
    var sendBuff := new byte[MAX_SIZE](_ => 0);
    ghost var header := [REGISTER_GROUPS] + ToBe32(4 * |groups|);
    Memcpy(sendBuff, 0, [REGISTER_GROUPS]);
    Memcpy(sendBuff, 1, ToBe32(4 * |groups|));
    var i := 0;
    assert groups[..0] == [];
    while i < |groups|
      invariant 0 <= i <= |groups| && sendBuff[..HEADER + 4 * i] == header + IntsBytes(groups[..i])
    {
      PutGroup(sendBuff, groups, i, header);
      i := i + 1;
    }
    assert groups[..i] == groups;
    sent := sendBuff[..HEADER + 4 * |groups|];
  }

  /** The loop of Handle_group_id_regs, on a payload of whole ints; with 1 to 3 bytes more
      the source reads and writes past its buffers. */
  method ReadGroups(payload: seq<byte>) returns (groups: array<int>, j: nat)
    requires |payload| % 4 == 0
    ensures fresh(groups) && groups[..] == ReadInts(payload) && j == groups.Length
  {
    var size, i := |payload|, 0;
    j := size / 4;
    groups := new int[j](_ => 0);
    while size > 0
      invariant 0 <= i <= j && size == |payload| - 4 * i
      invariant groups[..i] == ReadInts(payload[..4 * i])
    {
      ReadIntsAppend(payload[..4 * i], payload[i * 4..i * 4 + 4]);
      assert payload[..4 * (i + 1)] == payload[..4 * i] + payload[i * 4..i * 4 + 4];
      groups[i] := ReadInt(payload[i * 4..i * 4 + 4]);
      assert groups[..i + 1] == groups[..i] + [groups[i]];
      i := i + 1;
      size := size - 4;
    }
    assert payload[..4 * i] == payload && groups[..i] == groups[..];
  }

  // ---- Execution ----

  function ResultFrame(result: int, job: int): Frame
    requires Int32(result) && Int32(job)
  {
    Frame(RESULT, IntBytes(result) + IntBytes(job))
  }

  /** What Handle_execute_job reads from its frame, the job and the operation, and what
      Handle_result reads from its own, the result and the job. */
  function ReadPair(payload: seq<byte>): (int, int)
    requires |payload| >= 8
  {
    (ReadInt(payload[..4]), ReadInt(payload[4..8]))
  }

  /** Handle_execute_job on the numbers in the target file, with libminmax taken by its
      specification. */
  method HandleExecuteJob(payload: seq<byte>, lines: seq<int>) returns (sent: seq<byte>)
    requires |payload| >= 8 && ReadPair(payload).1 in {JOB_MIN, JOB_MAX}
    requires lines != [] && AllInt32(lines)
    ensures Int32(Extreme(ReadPair(payload).1, lines))
    ensures sent == Encode(ResultFrame(Extreme(ReadPair(payload).1, lines), ReadPair(payload).0))
    ensures sent == [6, 0, 0, 0, 8] + IntBytes(Extreme(ReadPair(payload).1, lines)) + IntBytes(ReadPair(payload).0)
  {
    var job := ReadInt(payload[..4]);
    var operation := ReadInt(payload[4..8]);
    var result := Extreme(operation, lines);
    var sendBuff := new byte[MAX_SIZE](_ => 0);
    FillFrame(sendBuff, RESULT, 8, IntBytes(result), IntBytes(job));
    sent := sendBuff[..HEADER + 8];
  }

  // ---- What arrives ----

  /** The frames, sent as one and read as one, are dispatched, and nothing is held. */
  predicate Arrives(fs: seq<Frame>) {
    && (forall f :: f in fs ==> Sendable(f))
    && FeedAll(Idle, [EncodeAll(fs)]) == Fed(fs, Idle)
  }

  /** Frames of known types that come in one read arrive; only a header that is split, or a
      type that is unknown, can go wrong. */
  lemma OneReadArrives(fs: seq<Frame>)
    requires AllKnown(fs) && forall f :: f in fs ==> Sendable(f)
    ensures Arrives(fs)
  {
    var b := EncodeAll(fs);
    var cuts := [b];
    ParseEncodeAll(fs);
    assert [] + b == b && Parse([]).rest == [] && cuts[1..] == [];
    assert Concat(cuts) == b + Concat([]) == b;
    assert Admissible([], b);
    assert AdmissibleAll([] + b, cuts[1..]);
    ReadsParse(cuts);
  }

  /** The groups a client names are the groups it is registered with. */
  lemma RegistrationArrives(groups: seq<int>)
    requires AllInt32(groups) && |groups| < 0x2000_0000
    ensures Arrives([RegisterFrame(groups)]) && ReadInts(RegisterFrame(groups).payload) == groups
  {
    IntsRoundTrip(groups);
    OneReadArrives([RegisterFrame(groups)]);
  }

  lemma PairRoundTrip(a: int, b: int)
    requires Int32(a) && Int32(b)
    ensures ReadPair(IntBytes(a) + IntBytes(b)) == (a, b)
  {
    var s := IntBytes(a) + IntBytes(b);
    assert s[..4] == IntBytes(a) && s[4..8] == IntBytes(b);
  }

  /** A client that holds a share and is told to execute its job sends back the reply that
      the protocol has it send: the job it was given and the extreme of its lines. */
  lemma AnswerArrives(s: State, id: int, k: nat)
    requires Has(s.jobs, id) && id in s.shares && k < |s.shares[id]| && 0 <= id < 0x8000_0000
    requires Get(s.jobs, id).operation in {JOB_MIN, JOB_MAX}
    requires s.shares[id][k].lines != [] && AllInt32(s.shares[id][k].lines)
    ensures var share, operation := s.shares[id][k], Get(s.jobs, id).operation;
            var value := Extreme(operation, share.lines);
            && ReadPair(ExecuteFrame(id, operation).payload) == (id, operation)
            && Arrives([ResultFrame(value, id)])
            && ReadPair(ResultFrame(value, id).payload) == (value, id)
            && HasShare(s, id, share.fd, value)
  {
    var share, operation := s.shares[id][k], Get(s.jobs, id).operation;
    PairRoundTrip(id, operation);
    PairRoundTrip(Extreme(operation, share.lines), id);
    OneReadArrives([ResultFrame(Extreme(operation, share.lines), id)]);
  }
}
