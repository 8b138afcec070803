/** Inputs on which assemble_tlv goes wrong: the two ways in which a read is not admissible. */
module TlvFailures {
  import opened TlvWire
  import opened TlvMachine
  import opened TlvAssembler
  import opened FileTransfer

  lemma LastRead(h: Held, c: seq<byte>)
    requires Proper(h)
    ensures FeedAll(h, [c]) == Feed(h, c)
  {
    var cuts, r := [c], Feed(h, c);
    assert cuts[1..] == [];
    assert r.Fed? ==> r.frames + [] == r.frames;
  }

  lemma TwoReads(b: seq<byte>, c: seq<byte>)
    ensures FeedAll(Idle, [b, c]) ==
              match Feed(Idle, b)
              case Unknown(fs) => Unknown(fs)
              case Fed(fs, h) => After(fs, Feed(h, c))
  {
    var cuts := [b, c];
    assert cuts[0] == b && cuts[1..] == [c];
    if Feed(Idle, b).Fed? {
      LastRead(Feed(Idle, b).held, c);
    }
  }

  /** A read that ends inside a header. */
  lemma CutHeader(s: seq<byte>, cut: nat)
    requires 1 <= cut < HEADER <= |s|
    ensures Feed(Idle, s[..cut]) == Fed([], Header(s[0], cut - 1, if cut == 1 then 0 else s[cut - 1]))
  {
  }

  /** The eight bytes of an order, taken for a header. */
  lemma OrderAsHeader(jobId: nat, operation: nat)
    requires 1 <= jobId < 0x100_0000 && operation < 0x8000_0000
    ensures FeedIdle(ToBe32(jobId) + ToBe32(operation))
              == Fed([], Body(0, 0x100 * jobId + operation / 0x100_0000, ToBe32(operation)[1..]))
  {
    var order := ToBe32(jobId) + ToBe32(operation);
    assert order[5..] == ToBe32(operation)[1..];
    assert order[1..5] == ToBe32(jobId)[1..] + [ToBe32(operation)[0]];
    assert Be32(ToBe32(jobId)) == jobId;
    assert Be32(order[1..5]) == 0x100 * jobId + operation / 0x100_0000;
  }

  /** An order to execute a job that is read in two pieces, cut inside its header, is always
      swallowed: its last eight bytes are taken for a header and the start of a payload, and
      the client waits for 256 bytes or more, without a call. */
  lemma SplitOrderIsSwallowed(jobId: nat, operation: nat, cut: nat)
    requires 1 <= jobId < 0x100_0000 && operation < 0x8000_0000 && 1 <= cut < HEADER
    ensures var s := Encode(ExecuteFrame(jobId, operation));
            && Parse(s) == Parsed([ExecuteFrame(jobId, operation)], [])
            && FeedAll(Idle, [s]) == Fed([ExecuteFrame(jobId, operation)], Idle)
            && FeedAll(Idle, [s[..cut], s[cut..]])
                 == Fed([], Body(0, 0x100 * jobId + operation / 0x100_0000, ToBe32(operation)[1..]))
  {
    var f := ExecuteFrame(jobId, operation);
    var s := Encode(f);
    WholeOrder(f);
    CutHeader(s, cut);
    assert s[cut..][5 - cut..] == f.payload;
    HeaderCompletes(Feed(Idle, s[..cut]).held, s[cut..], s[4], f.payload);
    OrderAsHeader(jobId, operation);
    TwoReads(s[..cut], s[cut..]);
  }

  lemma WholeOrder(f: Frame)
    requires Known(f.kind) && Sendable(f)
    ensures Parse(Encode(f)) == Parsed([f], []) && FeedAll(Idle, [Encode(f)]) == Fed([f], Idle)
  {
    var b := Encode(f);
    var cuts := [b];
    assert [f][1..] == [];
    assert EncodeAll([f]) == b;
    ParseEncodeAll([f]);
    assert [] + b == b && Parse([]).rest == [] && cuts[1..] == [];
    assert Concat(cuts) == b + Concat([]) == b;
    assert Admissible([], b);
    assert AdmissibleAll([] + b, cuts[1..]);
    ReadsParse(cuts);
  }

  /** The order for job 1 to compute a minimum, read as 4 bytes and 9. */
  lemma LateBodyExample(s: seq<byte>, one: nat)
    requires s == [5, 0, 0, 0, 8, 0, 0, 0, 1, 0, 0, 0, 1] && one == 1
    ensures s == Encode(ExecuteFrame(one, one))
    ensures FeedAll(Idle, [s]) == Fed([ExecuteFrame(one, one)], Idle)
    ensures FeedAll(Idle, [s[..4], s[4..]]) == Fed([], Body(0, 256, [0, 0, 1]))
  {
    assert ToBe32(one) == [0, 0, 0, 1];
    assert ToBe32(8 * one) == [0, 0, 0, 8];
    assert s == Encode(ExecuteFrame(one, one));
    SplitOrderIsSwallowed(one, one, 4);
  }

  /** After the five bytes of a header, read as four and one, the length is what its last
      byte says: a payload of n bytes is taken to have n % 256, and if that is 0 the call is
      made at once, without the payload. */
  lemma SplitLengthIsLowByte(f: Frame)
    requires Sendable(f)
    ensures var s, low := Encode(f), |f.payload| % 256;
            FeedAll(Idle, [s[..4], s[4..5]])
              == if low > 0 then Fed([], Body(f.kind, low, []))
                 else if Known(f.kind) then Fed([Frame(f.kind, [])], Idle)
                 else Unknown([])
  {
    var s := Encode(f);
    var h := Header(f.kind, 3, s[3]);
    assert Feed(Idle, s[..4]) == Fed([], h);
    assert s[4..5] == [s[4]] && [s[4]][1..] == [];
    assert Feed(h, [s[4]]) == FeedBody(f.kind, s[4] as nat, [], []);
    TwoReads(s[..4], s[4..5]);
  }

  /** A registration with 64 groups has 256 bytes, more than any frame of the chunk sender;
      if its header is read as 4 and 1, the call is made with no group at all. */
  lemma LongLengthExample(groups: seq<byte>)
    requires |groups| == 256
    ensures var f := Frame(REGISTER_GROUPS, groups);
            && FeedAll(Idle, [Encode(f)]) == Fed([f], Idle)
            && FeedAll(Idle, [Encode(f)[..4], Encode(f)[4..5]]) == Fed([Frame(REGISTER_GROUPS, [])], Idle)
  {
    WholeOrder(Frame(REGISTER_GROUPS, groups));
    SplitLengthIsLowByte(Frame(REGISTER_GROUPS, groups));
  }
}
