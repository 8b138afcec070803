/** assemble_tlv and its state, field by field, against the machine of TlvMachine.

    The receive buffer is an array; tlv_data is the sequence of bytes it points to, kept up
    to c and grown by the bytes copied. The two realloc sizes that leave out c are read as
    including it. Where the code compares its int remaining_bytes with an unsigned
    difference the comparison is unsigned, so remaining is a number below 2^32. */
module TlvAssembler {
  import opened TlvWire
  import opened TlvMachine

  datatype ReturnCode = NO_TLV_DATA | TLV_CONTINUE | DISCARDING

  /** What completes the payload, and what is left. */
  lemma CutAt(got: seq<byte>, b: seq<byte>, data: seq<byte>, later: seq<byte>)
    requires |got| <= |data| <= |got| + |b| && got + b == data + later
    ensures var need := |data| - |got|; got + b[..need] == data && b[need..] == later
  {
    var need := |data| - |got|;
    assert got + b[..need] == (got + b)[..|data|];
    assert b[need..] == (got + b)[|data|..];
  }

  lemma WholeHeader(b: seq<byte>, kind: byte, length: nat, more: seq<byte>)
    requires |b| >= HEADER && kind == b[0] && length == Be32(b[1..5]) && more == b[5..]
    ensures FeedIdle(b) == FeedBody(kind, length, [], more)
  {
  }

  lemma HeaderCompletes(h: Held, b: seq<byte>, length: nat, more: seq<byte>)
    requires h.Header? && Proper(h) && b != [] && h.k + |b| >= 4
    requires length == b[3 - h.k] as nat && more == b[4 - h.k..]
    ensures Feed(h, b) == if |more| >= HEADER then FeedIdle(more) else FeedBody(h.kind, length, [], more)
  {
  }

  /** What a read still does once the payload data has been completed and later is left. */
  lemma PayloadCompletes(kind: byte, length: nat, got: seq<byte>, b: seq<byte>, data: seq<byte>, later: seq<byte>)
    requires |got| <= length == |data| && |data| + |later| == |got| + |b| && length < 0x1_0000_0000
    requires got + b == data + later
    ensures FeedBody(kind, length, got, b)
              == if Known(kind) then Prepend(Frame(kind, data), FeedIdle(later)) else Unknown([])
  {
    CutAt(got, b, data, later);
  }

  lemma CallsGrow(calls: seq<Frame>, call: Frame, r: Fed)
    ensures After(calls, Prepend(call, r)) == After(calls + [call], r)
    ensures After(calls, Unknown([])) == Unknown(calls)
  {
    match r
    case Fed(fs, _) => assert calls + ([call] + fs) == calls + [call] + fs;
    case Unknown(fs) => assert calls + ([call] + fs) == calls + [call] + fs;
  }

  lemma NoMoreCalls(calls: seq<Frame>, h: Held)
    ensures After(calls, Fed([], h)) == Fed(calls, h)
  {
  }

  class TlvState {
    var kind: byte           // current_tlv_header.type
    var length: nat          // current_tlv_header.length
    var remainingHeader: int
    var remaining: nat       // remaining_bytes
    var r: int
    var c: nat
    var data: seq<byte>      // tlv_data
    var lenBytes: nat        // len_bytes_processed
    var lenIncomplete: bool  // len_is_not_complete
    var headerComplete: bool // tlv_header_is_complete
    var complete: bool       // tlv_is_complete

    /** The three shapes the fields take between two frames, in a split header and in a
        payload; r is 0 between two reads. */
    ghost predicate Shape()
      reads this
    {
      && !lenIncomplete == (headerComplete || lenBytes == 0)
      && if !complete then
           headerComplete && remaining > 0 && c == |data| && length == c + remaining < 0x1_0000_0000
         else
           && remaining == 0 && c == 0
           && (if headerComplete then length == 0
               else lenBytes < 4 && length < 256 && (lenBytes == 0 ==> length == 0))
    }

    ghost function Held(): (h: Held)
      requires Shape()
      reads this
      ensures Proper(h)
    {
      if !complete then Body(kind, length, data)
      else if headerComplete then Idle
      else Header(kind, lenBytes, length)
    }

    ghost predicate Valid()
      reads this
    {
      Shape() && r == 0
    }

    constructor ()
      ensures Valid() && Held() == Idle
    {
      kind, data := 0, [];
      new;
      Init();
    }

    /** init_tlv_state */
    method Init()
      modifies this
      ensures Valid() && Held() == Idle
    {
      r := 0;
      complete := true;
      data := [];
      c := 0;
      headerComplete := true;
      lenBytes := 0;
      lenIncomplete := false;
      remainingHeader := 0;
      remaining := 0;
      kind := 0;
      length := 0;
    }

    /** Lines 45-48: the type of a header that the read does not hold whole. */
    method BeginSplitHeader(recvBuff: array<byte>, n: nat)
      requires r < n <= recvBuff.Length && 0 <= r
      requires Shape() && Held() == Idle
      modifies this
      ensures Shape() && Held() == Header(recvBuff[old(r)], 0, 0) && r == old(r) + 1
    {
      kind := recvBuff[r];
      r := r + 1;
      headerComplete := false;
      lenBytes := 0;
    }

    /** Lines 57-84: as many length bytes as the read has, each into the low byte. */
    method CollectLength(recvBuff: array<byte>, n: nat)
      requires 0 <= r < n <= recvBuff.Length
      requires Shape() && Held().Header?
      modifies this
      ensures complete && c == 0 && data == old(data) && kind == old(kind)
      ensures var k := old(lenBytes);
              if k + (n - old(r)) < 4 then
                Shape() && lenIncomplete && r == n
                && Held() == Header(kind, k + (n - old(r)), recvBuff[n - 1])
              else
                && headerComplete && !lenIncomplete && r == old(r) + 4 - k <= n
                && length == remaining == recvBuff[r - 1] as nat
    {
      remainingHeader := n - r;
      ghost var start, k := r, lenBytes;
      while lenBytes < 4
        invariant k <= lenBytes <= 4 && r == start + lenBytes - k <= n
        invariant remainingHeader == n - r
        invariant lenBytes > k ==> length == recvBuff[r - 1] as nat
        invariant lenBytes > k ==> (lenIncomplete <==> lenBytes < 4)
        invariant lenBytes == k ==> length < 256
        invariant complete && !headerComplete && remaining == 0 && c == 0 && data == old(data) && kind == old(kind)
      {
        if remainingHeader == 0 {
          break;
        }
        length := length / 256 * 256 + recvBuff[r];
        r := r + 1;
        remainingHeader := remainingHeader - 1;
        lenBytes := lenBytes + 1;
        lenIncomplete := lenBytes < 4;
      }
      if lenBytes == 4 {
        headerComplete := true;
        lenIncomplete := false;
        remaining := length;
      }
    }

    /** A header is complete and n - r bytes of the read are still to come. */
    ghost predicate InPayload(n: nat)
      reads this
    {
      && 0 <= r <= n && headerComplete && !lenIncomplete && c <= |data| && length == c + remaining < 0x1_0000_0000
      && (if complete then c == 0 else r == 0 && c == |data| && remaining > 0)
    }

    /** Lines 92-105: a whole header in the read. */
    method TakeHeader(recvBuff: array<byte>, n: nat)
      requires 0 <= r && r + HEADER <= n <= recvBuff.Length
      requires complete && headerComplete && !lenIncomplete && c == 0
      modifies this
      ensures InPayload(n) && complete && kind == recvBuff[old(r)] && r == old(r) + HEADER
      ensures FeedIdle(recvBuff[old(r)..n]) == FeedBody(kind, length, [], recvBuff[r..n]) && data == []
    {
      ghost var b := recvBuff[r..n];
      ghost var four := [recvBuff[r + 1], recvBuff[r + 2], recvBuff[r + 3], recvBuff[r + 4]];
      assert b[1..5] == four && recvBuff[r + 1..r + 5] == four;
      WholeHeader(b, recvBuff[r], Be32(four), recvBuff[r + HEADER..n]);
      kind := recvBuff[r];
      remaining := Be32(recvBuff[r + 1..r + 5]);
      length := remaining;
      r := r + HEADER;
      data := [];
    }

    /** Lines 50-91, inside a split header. */
    method FinishSplitHeader(recvBuff: array<byte>, n: nat) returns (suspended: bool)
      requires Shape() && Held().Header? && 0 <= r <= n <= recvBuff.Length
      modifies this
      ensures suspended ==>
                Valid() && Held().Header? && Feed(old(Held()), recvBuff[old(r)..n]) == Fed([], Held())
      ensures !suspended ==>
                && InPayload(n) && complete && r > old(r)
                && Feed(old(Held()), recvBuff[old(r)..n])
                     == (if n - r >= HEADER then FeedIdle(recvBuff[r..n])
                         else FeedBody(kind, length, [], recvBuff[r..n]))
    {
      if n - r == 0 {
        r := 0;
        return true;
      }
      ghost var b, h := recvBuff[r..n], Held();
      CollectLength(recvBuff, n);
      if lenIncomplete {
        r := 0;
        return true;
      }
      HeaderCompletes(h, b, length, recvBuff[r..n]);
      return false;
    }

    /** Lines 41-105: the read goes on, through a header if need be, until a payload begins
        or goes on, or until it ends inside a header. */
    method ReachPayload(recvBuff: array<byte>, n: nat) returns (suspended: bool)
      requires Shape() && 0 <= r <= n <= recvBuff.Length && (r == 0 || Held() == Idle)
      requires r < n || !complete
      modifies this
      ensures suspended ==>
                Valid() && Held().Header? && Feed(old(Held()), recvBuff[old(r)..n]) == Fed([], Held())
      ensures !suspended ==>
                && InPayload(n) && r >= old(r) && (r > old(r) || !complete)
                && Feed(old(Held()), recvBuff[old(r)..n]) == FeedBody(kind, length, data[..c], recvBuff[r..n])
    {
      ghost var b, held := recvBuff[r..n], Held();
      if n - r < HEADER && headerComplete && remaining == 0 {
        BeginSplitHeader(recvBuff, n);
        assert recvBuff[r..n] == b[1..];
        assert Feed(held, b) == Feed(Held(), b[1..]);
      }
      if !headerComplete {
        suspended := FinishSplitHeader(recvBuff, n);
        if suspended {
          return;
        }
      }
      if n - r >= HEADER && complete {
        TakeHeader(recvBuff, n);
      }
      assert data[..c] == if complete then [] else data;
      suspended := false;
    }

    /** Lines 107-167: the payload is filled from the read, completely or as far as it goes. */
    method FillPayload(recvBuff: array<byte>, n: nat) returns (suspended: bool)
      requires InPayload(n) && n <= recvBuff.Length
      modifies this
      ensures kind == old(kind) && length == old(length)
      ensures suspended ==>
                && Valid() && Held().Body?
                && FeedBody(kind, length, old(data[..c]), recvBuff[old(r)..n]) == Fed([], Held())
      ensures !suspended ==>
                && complete && headerComplete && !lenIncomplete && remaining == 0 && c == 0
                && old(r) <= r == old(r) + length - old(c) <= n && |data| == length
                && data == old(data[..c]) + recvBuff[old(r)..r]
      ensures !suspended ==> old(data[..c]) + recvBuff[old(r)..n] == data + recvBuff[r..n]
    {
      if remaining > n - r {
        data := data[..c] + recvBuff[r..n];
        remaining := remaining - (n - r);
        c := c + (n - r);
        r := 0;
        complete := false;
        return true;
      } else {
        if complete {
          data := recvBuff[r..r + remaining];
        } else {
          data := data[..c] + recvBuff[..remaining];
        }
        r := r + remaining;
        remaining := 0;
        complete := true;
        c := 0;
        return false;
      }
    }

    /** Lines 170-243: the call for a frame of known type. */
    method Dispatch() returns (call: Frame)
      requires complete && headerComplete && !lenIncomplete && remaining == 0 && c == 0
      modifies this
      ensures Shape() && Held() == Idle && r == old(r)
      ensures call == old(Frame(kind, data))
    {
      call := Frame(kind, data);
      data := [];
      kind := 0xFF;
      length := 0;
    }

    /** Lines 41-167: the read goes on until a frame is whole, or until it ends inside one. */
    method ReachFrame(recvBuff: array<byte>, n: nat) returns (suspended: bool)
      requires Shape() && 0 <= r <= n <= recvBuff.Length && (r == 0 || Held() == Idle)
      requires r < n || !complete
      modifies this
      ensures suspended ==>
                Valid() && Held() != Idle && Feed(old(Held()), recvBuff[old(r)..n]) == Fed([], Held())
      ensures suspended && old(r) == n ==> old(Held()).Header? || Held().Body?
      ensures !suspended ==>
                && complete && headerComplete && !lenIncomplete && remaining == 0 && c == 0
                && old(r) < r <= n
                && Feed(old(Held()), recvBuff[old(r)..n])
                     == if Known(kind) then Prepend(Frame(kind, data), FeedIdle(recvBuff[r..n])) else Unknown([])
    {
      suspended := ReachPayload(recvBuff, n);
      if suspended {
        return;
      }
      ghost var got, b := data[..c], recvBuff[r..n];
      suspended := FillPayload(recvBuff, n);
      if !suspended {
        PayloadCompletes(kind, length, got, b, data, recvBuff[r..n]);
      }
    }

    /** One read. Its calls, its return value and what it keeps are those of the machine. */
    method Assemble(recvBuff: array<byte>, buffLen: nat) returns (code: ReturnCode, calls: seq<Frame>)
      requires Valid() && buffLen <= recvBuff.Length
      modifies this
      ensures match Feed(old(Held()), recvBuff[..buffLen])
              case Fed(frames, held) =>
                Valid() && calls == frames && Held() == held && code != DISCARDING
                && (code == NO_TLV_DATA <==> held == Idle || (buffLen == 0 && held.Header?))
              case Unknown(frames) => calls == frames && code == DISCARDING
    {
      calls := [];
      ghost var goal := Feed(Held(), recvBuff[..buffLen]);
      CallsGrow([], Frame(0, []), goal);
      assert recvBuff[0..buffLen] == recvBuff[..buffLen];
      while true
        invariant Shape() && 0 <= r <= buffLen
        invariant r > 0 ==> Held() == Idle
        invariant r == 0 ==> calls == [] && Held() == old(Held())
        invariant After(calls, Feed(Held(), recvBuff[r..buffLen])) == goal
        decreases buffLen - r
      {
        if buffLen - r == 0 && complete {
          r := 0;
          return NO_TLV_DATA, calls;
        }
        var suspended := ReachFrame(recvBuff, buffLen);
        if suspended {
          return TLV_CONTINUE, calls;
        }
        CallsGrow(calls, Frame(kind, data), FeedIdle(recvBuff[r..buffLen]));
        if !Known(kind) {
          return DISCARDING, calls;
        }
        var call := Dispatch();
        calls := calls + [call];
      }
    }
  }

  const TLV_BUFF_SIZE := 79

  /** The bytes b arrive at the front of the buffer and are assembled. */
  method ProcessRead(tlvs: TlvState, recvBuff: array<byte>, b: seq<byte>) returns (calls: seq<Frame>, lost: bool)
    requires tlvs.Valid() && |b| <= recvBuff.Length
    modifies tlvs, recvBuff
    ensures lost <==> Feed(old(tlvs.Held()), b).Unknown?
    ensures calls == Feed(old(tlvs.Held()), b).frames
    ensures !lost ==> tlvs.Valid() && tlvs.Held() == Feed(old(tlvs.Held()), b).held
  {
    forall k | 0 <= k < |b| {
      recvBuff[k] := b[k];
    }
    assert recvBuff[..|b|] == b;
    var code;
    code, calls := tlvs.Assemble(recvBuff, |b|);
    lost := code == DISCARDING;
  }

  lemma SessionStep(h: Held, cuts: seq<seq<byte>>, i: nat, calls: seq<Frame>)
    requires Proper(h) && i < |cuts|
    ensures cuts[i] == [] ==> Session(h, cuts[i..]) == Session(Idle, cuts[i + 1..])
    ensures cuts[i] != [] && Feed(h, cuts[i]).Unknown? ==>
              After(calls, Session(h, cuts[i..])) == Unknown(calls + Feed(h, cuts[i]).frames)
    ensures cuts[i] != [] && Feed(h, cuts[i]).Fed? ==>
              var r := Feed(h, cuts[i]);
              After(calls, Session(h, cuts[i..])) == After(calls + r.frames, Session(r.held, cuts[i + 1..]))
  {
    assert cuts[i..][0] == cuts[i] && cuts[i..][1..] == cuts[i + 1..];
    var r := Feed(h, cuts[i]);
    if cuts[i] != [] && r.Fed? {
      AfterAfter(calls, r.frames, Session(r.held, cuts[i + 1..]));
    }
  }

  /** The client's read loop: each read fills at most TLV_BUFF_SIZE bytes of one buffer, and
      one TlvState lives from read to read, initialised again by a read of no bytes. The
      loop stops early only at a frame whose type is unknown. */
  method ProcessReads(cuts: seq<seq<byte>>) returns (calls: seq<Frame>, lost: bool)
    requires forall b :: b in cuts ==> |b| <= TLV_BUFF_SIZE
    ensures calls == Session(Idle, cuts).frames
    ensures lost <==> Session(Idle, cuts).Unknown?
  {
    var recvBuff := new byte[MAX_SIZE](_ => 0);
    var tlvs := new TlvState();
    calls := [];
    lost := false;
    var i := 0;
    ghost var goal := Session(Idle, cuts);
    assert cuts[0..] == cuts;
    AfterNothing(goal);
    while i < |cuts|
      invariant 0 <= i <= |cuts| && tlvs.Valid() && fresh(tlvs) && fresh(recvBuff)
      invariant recvBuff.Length == MAX_SIZE
      invariant After(calls, Session(tlvs.Held(), cuts[i..])) == goal
    {
      SessionStep(tlvs.Held(), cuts, i, calls);
      if cuts[i] == [] {
        tlvs.Init();
      } else {
        var newCalls;
        newCalls, lost := ProcessRead(tlvs, recvBuff, cuts[i]);
        calls := calls + newCalls;
        if lost {
          return;
        }
      }
      i := i + 1;
    }
    NoMoreCalls(calls, tlvs.Held());
  }
}
