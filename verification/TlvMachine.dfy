/** What assemble_tlv does with the bytes of one read, and how it may lose the stream. */
module TlvMachine {
  import opened TlvWire

  /** What is kept between two reads: nothing, a header of which the type and k < 4 length
      bytes have been seen, or a header and a proper part of its payload. Every length
      byte of a split header is stored in the low byte of the length, so of those
      only the last is kept. */
  datatype Held =
    | Idle
    | Header(kind: byte, k: nat, low: byte)
    | Body(kind: byte, length: nat, got: seq<byte>)

  /** The calls made by one read and what is kept after it, or, where a frame of unknown
      type is met, only the calls made before it. */
  datatype Fed = Fed(frames: seq<Frame>, held: Held) | Unknown(frames: seq<Frame>)

  function Prepend(f: Frame, r: Fed): Fed {
    match r
    case Fed(fs, h) => Fed([f] + fs, h)
    case Unknown(fs) => Unknown([f] + fs)
  }

  /** What can be kept: k is at most 3, and a payload is kept only while it lacks bytes. */
  predicate Proper(h: Held) {
    match h
    case Idle => true
    case Header(_, k, low) => k < 4 && (k == 0 ==> low == 0)
    case Body(_, length, got) => |got| < length < 0x1_0000_0000
  }

  /** The read goes on inside the payload. */
  function FeedBody(kind: byte, length: nat, got: seq<byte>, b: seq<byte>): (r: Fed)
    requires |got| <= length < 0x1_0000_0000
    ensures r.Fed? ==> Proper(r.held)
    decreases |b|, 1
  {
    var need := length - |got|;
    if need > |b| then Fed([], Body(kind, length, got + b))
    else if !Known(kind) then Unknown([])
    else Prepend(Frame(kind, got + b[..need]), FeedIdle(b[need..]))
  }

  /** The read goes on between two frames. */
  function FeedIdle(b: seq<byte>): (r: Fed)
    ensures r.Fed? ==> Proper(r.held)
    decreases |b|, 0
  {
    if b == [] then Fed([], Idle)
    else if |b| < HEADER then Fed([], Header(b[0], |b| - 1, if |b| == 1 then 0 else b[|b| - 1]))
    else FeedBody(b[0], Be32(b[1..5]), [], b[5..])
  }

  /** The read goes on inside a split header. Once that is complete, a header's worth of
      further bytes is taken for a new header. */
  function FeedHeader(kind: byte, k: nat, low: byte, b: seq<byte>): (r: Fed)
    requires Proper(Header(kind, k, low))
    ensures r.Fed? ==> Proper(r.held)
  {
    if b == [] then Fed([], Header(kind, k, low))
    else if k + |b| < 4 then Fed([], Header(kind, k + |b|, b[|b| - 1]))
    else
      var more := b[4 - k..];
      if |more| >= HEADER then FeedIdle(more)
      else FeedBody(kind, b[3 - k], [], more)
  }

  function Feed(h: Held, b: seq<byte>): (r: Fed)
    requires Proper(h)
    ensures r.Fed? ==> Proper(r.held)
  {
    match h
    case Idle => FeedIdle(b)
    case Header(kind, k, low) => FeedHeader(kind, k, low, b)
    case Body(kind, length, got) => FeedBody(kind, length, got, b)
  }

  // ---- The machine against the parser ----

  /** h keeps exactly the unparsed bytes rest. */
  predicate Keeps(h: Held, rest: seq<byte>) {
    match h
    case Idle => rest == []
    case Header(kind, k, low) =>
      |rest| == k + 1 < HEADER && rest[0] == kind && low == if k == 0 then 0 else rest[k]
    case Body(kind, length, got) =>
      |rest| >= HEADER && rest[0] == kind && length == Be32(rest[1..5]) && got == rest[5..] && |got| < length
  }

  /** The read b, taken with the unparsed bytes rest before it, has made the calls of the
      frames it completes, and what it leaves is what the parser leaves. */
  predicate InStep(r: Fed, rest: seq<byte>, b: seq<byte>) {
    r.Fed? && r.frames == Parse(rest + b).frames && Keeps(r.held, Parse(rest + b).rest)
  }

  predicate AllKnown(fs: seq<Frame>) {
    forall i :: 0 <= i < |fs| ==> Known(fs[i].kind)
  }

  /** The reads after which the machine is right: every frame completed has a known type,
      and a header that an earlier read began and this one completes announces fewer than
      256 bytes and is followed, in this read, by fewer bytes than a header has. */
  predicate Admissible(rest: seq<byte>, b: seq<byte>) {
    && AllKnown(Parse(rest + b).frames)
    && (0 < |rest| < HEADER <= |rest| + |b| ==>
          Be32((rest + b)[1..5]) < 256 && |rest| + |b| < 2 * HEADER)
  }

  /** The payload that rest begins and b completes. */
  lemma BodyCompletes(rest: seq<byte>, b: seq<byte>)
    requires |rest| >= HEADER && |rest| - HEADER <= Be32(rest[1..5]) <= |rest| - HEADER + |b|
    ensures var need := Be32(rest[1..5]) - (|rest| - HEADER);
            && Parse(rest + b).frames == [Frame(rest[0], rest[5..] + b[..need])] + Parse(b[need..]).frames
            && Parse(rest + b).rest == Parse(b[need..]).rest
  {
    var s := rest + b;
    var need := Be32(rest[1..5]) - (|rest| - HEADER);
    assert s[1..5] == rest[1..5];
    assert s[5..5 + Be32(rest[1..5])] == rest[5..] + b[..need];
    assert AfterFrame(s) == b[need..];
  }

  lemma PrependInStep(f: Frame, r: Fed, b: seq<byte>, rest': seq<byte>, b': seq<byte>)
    requires Parse(rest' + b').frames == [f] + Parse(b).frames && Parse(rest' + b').rest == Parse(b).rest
    ensures InStep(Prepend(f, r), rest', b') <==> InStep(r, [], b)
  {
    assert [] + b == b;
    if r.Fed? {
      assert ([f] + r.frames)[1..] == r.frames;
      assert ([f] + Parse(b).frames)[1..] == Parse(b).frames;
    }
  }

  lemma AllKnownCons(f: Frame, fs: seq<Frame>)
    ensures AllKnown([f] + fs) <==> Known(f.kind) && AllKnown(fs)
  {
    assert ([f] + fs)[0] == f;
    assert forall i :: 0 <= i < |fs| ==> ([f] + fs)[i + 1] == fs[i];
  }

  lemma {:induction false} FeedBodyInStep(kind: byte, length: nat, got: seq<byte>, b: seq<byte>, rest: seq<byte>)
    requires |rest| >= HEADER && rest[0] == kind && length == Be32(rest[1..5]) && got == rest[5..]
    requires |got| <= length < 0x1_0000_0000
    ensures InStep(FeedBody(kind, length, got, b), rest, b) <==> AllKnown(Parse(rest + b).frames)
    decreases |b|, 1
  {
    var need := length - |got|;
    if need <= |b| {
      var f := Frame(kind, got + b[..need]);
      BodyCompletes(rest, b);
      AllKnownCons(f, Parse(b[need..]).frames);
      FeedIdleInStep(b[need..]);
      PrependInStep(f, FeedIdle(b[need..]), b[need..], rest, b);
    } else {
      assert (rest + b)[1..5] == rest[1..5];
      assert (rest + b)[5..] == got + b;
    }
  }

  lemma {:induction false} FeedIdleInStep(b: seq<byte>)
    ensures InStep(FeedIdle(b), [], b) <==> AllKnown(Parse(b).frames)
    decreases |b|, 0
  {
    assert [] + b == b;
    if |b| >= HEADER {
      assert b[..5] + b[5..] == b;
      assert b[..5][1..5] == b[1..5];
      FeedBodyInStep(b[0], Be32(b[1..5]), [], b[5..], b[..5]);
    }
  }

  // ---- Byte accounting ----

  function HeldBytes(h: Held): nat {
    match h
    case Idle => 0
    case Header(_, k, _) => 1 + k
    case Body(_, _, got) => HEADER + |got|
  }

  /** Within a payload or between frames no byte is lost: each is in a call or kept. */
  lemma {:induction false} FeedBodyBytes(kind: byte, length: nat, got: seq<byte>, b: seq<byte>)
    requires |got| <= length < 0x1_0000_0000
    ensures var r := FeedBody(kind, length, got, b);
            r.Fed? ==> FrameBytes(r.frames) + HeldBytes(r.held) == HEADER + |got| + |b|
    decreases |b|, 1
  {
    var need := length - |got|;
    if need <= |b| && Known(kind) {
      FeedIdleBytes(b[need..]);
      var r := FeedIdle(b[need..]);
      if r.Fed? {
        var f := Frame(kind, got + b[..need]);
        assert ([f] + r.frames)[1..] == r.frames;
      }
    }
  }

  lemma {:induction false} FeedIdleBytes(b: seq<byte>)
    ensures var r := FeedIdle(b);
            r.Fed? ==> FrameBytes(r.frames) + HeldBytes(r.held) == |b|
    decreases |b|, 0
  {
    if |b| >= HEADER {
      FeedBodyBytes(b[0], Be32(b[1..5]), [], b[5..]);
    }
  }

  /** The header's worth of bytes that a read completing a split header loses. */
  function Lost(h: Held, b: seq<byte>): nat {
    if h.Header? && h.k + |b| >= 4 + HEADER then HEADER else 0
  }

  lemma FeedHeaderBytes(kind: byte, k: nat, low: byte, b: seq<byte>)
    requires Proper(Header(kind, k, low)) && k + |b| >= 4
    ensures var r := FeedHeader(kind, k, low, b);
            r.Fed? ==>
              FrameBytes(r.frames) + HeldBytes(r.held) == 1 + k + |b| - Lost(Header(kind, k, low), b)
  {
    if b != [] {
      var more := b[4 - k..];
      if |more| >= HEADER {
        FeedIdleBytes(more);
      } else {
        FeedBodyBytes(kind, b[3 - k], [], more);
      }
    }
  }

  /** Every byte read is in a call, is kept, or is one of the five lost when a completed
      split header is followed by a header's worth of bytes. */
  lemma FeedBytes(h: Held, b: seq<byte>)
    requires Proper(h)
    ensures var r := Feed(h, b);
            r.Fed? ==> FrameBytes(r.frames) + HeldBytes(r.held) + Lost(h, b) == HeldBytes(h) + |b|
  {
    match h
    case Idle => FeedIdleBytes(b);
    case Body(kind, length, got) => FeedBodyBytes(kind, length, got, b);
    case Header(kind, k, low) =>
      if k + |b| >= 4 {
        FeedHeaderBytes(kind, k, low, b);
      }
  }

  // ---- One read ----

  lemma KeepsBytes(h: Held, rest: seq<byte>)
    requires Keeps(h, rest)
    ensures HeldBytes(h) == |rest|
  {
  }

  /** After losing bytes the machine is not in step, whatever the bytes are. */
  lemma LostOutOfStep(h: Held, rest: seq<byte>, b: seq<byte>)
    requires Proper(h) && Keeps(h, rest) && Lost(h, b) > 0
    ensures !InStep(Feed(h, b), rest, b)
  {
    var r := Feed(h, b);
    FeedBytes(h, b);
    if InStep(r, rest, b) {
      ParseBytes(rest + b);
      KeepsBytes(h, rest);
      KeepsBytes(r.held, Parse(rest + b).rest);
      assert false;
    }
  }

  /** The split header that rest begins is completed by b, with fewer than a header's worth
      of bytes after it: its length must be the one byte that was kept of it. */
  lemma SplitInStep(h: Held, rest: seq<byte>, b: seq<byte>)
    requires h.Header? && Proper(h) && Keeps(h, rest)
    requires HEADER <= |rest| + |b| < 2 * HEADER
    ensures InStep(Feed(h, b), rest, b) <==> Admissible(rest, b)
  {
    var s := rest + b;
    var low := b[3 - h.k];
    var more := b[4 - h.k..];
    var length := Be32(s[1..5]);
    assert low == s[4] == s[1..5][3];
    assert s[..5] + more == s;
    if length < 256 {
      assert s[..5][1..5] == s[1..5];
      FeedBodyInStep(h.kind, low, [], more, s[..5]);
    } else {
      assert !HasFrame(s);
    }
  }

  lemma ShortInStep(h: Held, rest: seq<byte>, b: seq<byte>)
    requires h.Header? && Proper(h) && Keeps(h, rest) && |rest| + |b| < HEADER
    ensures InStep(Feed(h, b), rest, b) && Admissible(rest, b)
  {
    assert !HasFrame(rest + b);
    if b == [] {
      assert rest + b == rest;
    }
  }

  /** One read keeps the machine in step with the parser if and only if it is admissible. */
  lemma OneRead(h: Held, rest: seq<byte>, b: seq<byte>)
    requires Proper(h) && Keeps(h, rest)
    ensures InStep(Feed(h, b), rest, b) <==> Admissible(rest, b)
  {
    match h
    case Idle => FeedIdleInStep(b); assert [] + b == b;
    case Body(kind, length, got) => FeedBodyInStep(kind, length, got, b, rest);
    case Header(_, k, _) =>
      if |rest| + |b| < HEADER {
        ShortInStep(h, rest, b);
      } else if |rest| + |b| < 2 * HEADER {
        SplitInStep(h, rest, b);
      } else {
        LostOutOfStep(h, rest, b);
      }
  }

  // ---- Every sequence of cuts ----

  function Concat(cuts: seq<seq<byte>>): seq<byte> {
    if cuts == [] then [] else cuts[0] + Concat(cuts[1..])
  }

  function After(fs: seq<Frame>, r: Fed): Fed {
    match r
    case Fed(gs, h) => Fed(fs + gs, h)
    case Unknown(gs) => Unknown(fs + gs)
  }

  /** One read after the other, as far as the machine gets. */
  function FeedAll(h: Held, cuts: seq<seq<byte>>): Fed
    requires Proper(h)
    decreases cuts
  {
    if cuts == [] then Fed([], h)
    else
      match Feed(h, cuts[0])
      case Unknown(fs) => Unknown(fs)
      case Fed(fs, h') => After(fs, FeedAll(h', cuts[1..]))
  }

  /** The client's loop: a read of no bytes is the end of what was sent, after which the
      state is initialised again. */
  function Session(h: Held, cuts: seq<seq<byte>>): Fed
    requires Proper(h)
    decreases cuts
  {
    if cuts == [] then Fed([], h)
    else if cuts[0] == [] then Session(Idle, cuts[1..])
    else
      match Feed(h, cuts[0])
      case Unknown(fs) => Unknown(fs)
      case Fed(fs, h') => After(fs, Session(h', cuts[1..]))
  }

  predicate NoEnd(cuts: seq<seq<byte>>) { forall k :: 0 <= k < |cuts| ==> cuts[k] != [] }

  lemma {:induction false} SessionWithoutEnd(h: Held, cuts: seq<seq<byte>>)
    requires Proper(h) && NoEnd(cuts)
    ensures Session(h, cuts) == FeedAll(h, cuts)
    decreases cuts
  {
    if cuts != [] {
      assert forall k :: 0 <= k < |cuts| - 1 ==> cuts[1..][k] == cuts[k + 1];
      var r := Feed(h, cuts[0]);
      if r.Fed? {
        SessionWithoutEnd(r.held, cuts[1..]);
      }
    }
  }

  /** What is held at a read of no bytes is dropped: later reads are read as from the start. */
  lemma {:induction false} SessionRestarts(h: Held, before: seq<seq<byte>>, later: seq<seq<byte>>)
    requires Proper(h) && Session(h, before).Fed?
    ensures Session(h, before + [[]] + later) == After(Session(h, before).frames, Session(Idle, later))
    decreases before
  {
    var all := before + [[]] + later;
    if before == [] {
      assert all[0] == [] && all[1..] == later;
      AfterNothing(Session(Idle, later));
    } else {
      assert all[0] == before[0] && all[1..] == before[1..] + [[]] + later;
      if before[0] == [] {
        SessionRestarts(Idle, before[1..], later);
      } else {
        var r := Feed(h, before[0]);
        SessionRestarts(r.held, before[1..], later);
        AfterAfter(r.frames, Session(r.held, before[1..]).frames, Session(Idle, later));
      }
    }
  }

  lemma AfterAfter(fs: seq<Frame>, gs: seq<Frame>, r: Fed)
    ensures After(fs, After(gs, r)) == After(fs + gs, r)
  {
    assert fs + (gs + r.frames) == fs + gs + r.frames;
  }

  lemma AfterNothing(r: Fed)
    ensures After([], r) == r
  {
    assert [] + r.frames == r.frames;
  }

  /** Each read is admissible after the bytes before it. */
  predicate AdmissibleAll(past: seq<byte>, cuts: seq<seq<byte>>)
    decreases cuts
  {
    cuts == [] ||
    (Admissible(Parse(past).rest, cuts[0]) && AdmissibleAll(past + cuts[0], cuts[1..]))
  }

  /** The machine is in step after each of the reads. */
  predicate InStepAll(h: Held, past: seq<byte>, cuts: seq<seq<byte>>)
    requires Proper(h)
    decreases cuts
  {
    cuts == [] ||
    (var r := Feed(h, cuts[0]);
     InStep(r, Parse(past).rest, cuts[0]) && InStepAll(r.held, past + cuts[0], cuts[1..]))
  }

  /** Over any sequence of reads the machine stays in step if and only if every read is
      admissible. */
  lemma {:induction false} InStepIffAdmissible(h: Held, past: seq<byte>, cuts: seq<seq<byte>>)
    requires Proper(h) && Keeps(h, Parse(past).rest)
    ensures InStepAll(h, past, cuts) <==> AdmissibleAll(past, cuts)
    decreases cuts
  {
    if cuts != [] {
      OneRead(h, Parse(past).rest, cuts[0]);
      ParseMore(past, cuts[0]);
      var r := Feed(h, cuts[0]);
      if InStep(r, Parse(past).rest, cuts[0]) {
        InStepIffAdmissible(r.held, past + cuts[0], cuts[1..]);
      }
    }
  }

  lemma ReadParses(h: Held, past: seq<byte>, b: seq<byte>)
    requires Proper(h) && Keeps(h, Parse(past).rest) && Admissible(Parse(past).rest, b)
    ensures var r := Feed(h, b);
            && r.Fed?
            && Parse(past + b).frames == Parse(past).frames + r.frames
            && Keeps(r.held, Parse(past + b).rest)
  {
    OneRead(h, Parse(past).rest, b);
    ParseMore(past, b);
  }

  /** The calls made for the bytes past and then those of the reads, and what is kept, are
      those of the parse of the stream. */
  predicate Parses(fs: seq<Frame>, r: Fed, stream: seq<byte>) {
    var all := After(fs, r);
    all.Fed? && all.frames == Parse(stream).frames && Keeps(all.held, Parse(stream).rest)
  }

  lemma ParsesAfter(fs: seq<Frame>, gs: seq<Frame>, r: Fed, stream: seq<byte>)
    requires Parses(fs + gs, r, stream)
    ensures Parses(fs, After(gs, r), stream)
  {
    AfterAfter(fs, gs, r);
  }

  lemma ParsesFirst(h: Held, past: seq<byte>, b: seq<byte>, r: Fed, stream: seq<byte>)
    requires Proper(h) && Keeps(h, Parse(past).rest) && Admissible(Parse(past).rest, b)
    requires Parses(Parse(past + b).frames, r, stream)
    ensures Parses(Parse(past).frames, After(Feed(h, b).frames, r), stream)
  {
    ReadParses(h, past, b);
    ParsesAfter(Parse(past).frames, Feed(h, b).frames, r, stream);
  }

  lemma ParsesNone(h: Held, stream: seq<byte>)
    requires Keeps(h, Parse(stream).rest)
    ensures Parses(Parse(stream).frames, Fed([], h), stream)
  {
  }

  lemma ParsesStep(h: Held, past: seq<byte>, cuts: seq<seq<byte>>, stream: seq<byte>)
    requires cuts != [] && Proper(h) && Keeps(h, Parse(past).rest) && Admissible(Parse(past).rest, cuts[0])
    requires Feed(h, cuts[0]).Fed?
    requires Parses(Parse(past + cuts[0]).frames, FeedAll(Feed(h, cuts[0]).held, cuts[1..]), stream)
    ensures Parses(Parse(past).frames, FeedAll(h, cuts), stream)
  {
    ParsesFirst(h, past, cuts[0], FeedAll(Feed(h, cuts[0]).held, cuts[1..]), stream);
  }

  lemma ConcatFirst(past: seq<byte>, cuts: seq<seq<byte>>)
    ensures cuts == [] ==> past + Concat(cuts) == past
    ensures cuts != [] ==> past + Concat(cuts) == past + cuts[0] + Concat(cuts[1..])
  {
  }

  lemma {:induction false} FeedAllParses(h: Held, past: seq<byte>, cuts: seq<seq<byte>>, stream: seq<byte>)
    requires Proper(h) && Keeps(h, Parse(past).rest) && AdmissibleAll(past, cuts)
    requires stream == past + Concat(cuts)
    ensures Parses(Parse(past).frames, FeedAll(h, cuts), stream)
    decreases cuts
  {
    ConcatFirst(past, cuts);
    if cuts == [] {
      ParsesNone(h, past);
    } else {
      ReadParses(h, past, cuts[0]);
      FeedAllParses(Feed(h, cuts[0]).held, past + cuts[0], cuts[1..], stream);
      ParsesStep(h, past, cuts, stream);
    }
  }

  /** From the start of a stream, admissible reads make exactly the calls of the parse of
      their bytes taken together, and keep exactly the bytes it leaves over. */
  lemma ReadsParse(cuts: seq<seq<byte>>)
    requires AdmissibleAll([], cuts)
    ensures var r := FeedAll(Idle, cuts);
            r.Fed? && r.frames == Parse(Concat(cuts)).frames && Keeps(r.held, Parse(Concat(cuts)).rest)
  {
    FeedAllParses(Idle, [], cuts, Concat(cuts));
    assert [] + FeedAll(Idle, cuts).frames == FeedAll(Idle, cuts).frames;
  }

  lemma KeepsUnique(h: Held, h': Held, rest: seq<byte>)
    requires Keeps(h, rest) && Keeps(h', rest)
    ensures h == h'
  {
  }

  /** However the network cuts a stream into admissible reads, the calls are the same. */
  lemma FragmentationIrrelevant(cuts: seq<seq<byte>>, cuts': seq<seq<byte>>)
    requires AdmissibleAll([], cuts) && AdmissibleAll([], cuts') && Concat(cuts) == Concat(cuts')
    ensures FeedAll(Idle, cuts) == FeedAll(Idle, cuts')
  {
    ReadsParse(cuts);
    ReadsParse(cuts');
    KeepsUnique(FeedAll(Idle, cuts).held, FeedAll(Idle, cuts').held, Parse(Concat(cuts)).rest);
  }
}
