/** The bytes of every message, written out, and what a byte of type does. */
module WireBytes {
  import opened TlvWire
  import opened TlvMachine
  import opened FileTransfer
  import opened Messages

  /** The highest byte goes first. */
  lemma BigEndian(a: byte, b: byte, c: byte, d: byte, n: nat)
    requires n == 0x100_0000 * a as int + 0x1_0000 * b as int + 0x100 * c as int + d as int
    ensures n < 0x1_0000_0000 && ToBe32(n) == [a, b, c, d]
  {
    assert n / 0x100_0000 == a as int;
    assert n / 0x1_0000 == 0x100 * a as int + b as int;
    assert n / 0x100 == 0x1_0000 * a as int + 0x100 * b as int + c as int;
  }

  /** A negative int goes as its two's complement. */
  lemma NegativeInt(v: int)
    requires -0x8000_0000 <= v < 0
    ensures IntBytes(v) == ToBe32(v + 0x1_0000_0000)
  {
  }

  /** One chunk of the file: the type of a write for the first and of an append for the
      others, the length, the name b.txt in ten bytes, and at most 64 bytes of the file. */
  lemma ChunkBytes(file: seq<byte>, i: nat)
    requires i < |file|
    ensures var n := if |file| - i > 64 then 64 else |file| - i;
            && Sendable(ChunkFrame(file, i))
            && Encode(ChunkFrame(file, i))
                 == [if i == 0 then 2 else 7] + ToBe32(10 + n) + [98, 46, 116, 120, 116, 0, 0, 0, 0, 0] + file[i..i + n]
  {
  }

  lemma OrderBytes(jobId: nat, operation: nat)
    requires jobId < 0x8000_0000 && operation < 0x8000_0000
    ensures Encode(ExecuteFrame(jobId, operation)) == [5, 0, 0, 0, 8] + ToBe32(jobId) + ToBe32(operation)
  {
    BigEndian(0, 0, 0, 8, 8);
  }

  lemma ResultBytes(result: int, job: int)
    requires Int32(result) && Int32(job)
    ensures Encode(ResultFrame(result, job)) == [6, 0, 0, 0, 8] + IntBytes(result) + IntBytes(job)
  {
    BigEndian(0, 0, 0, 8, 8);
  }

  lemma RegisterBytes(groups: seq<int>)
    requires AllInt32(groups) && |groups| < 0x2000_0000
    ensures Sendable(RegisterFrame(groups))
    ensures Encode(RegisterFrame(groups)) == [3] + ToBe32(4 * |groups|) + IntsBytes(groups)
  {
  }

  lemma SliceAfter(first: seq<byte>, rest: seq<byte>, i: nat)
    requires |first| == 4 && i + 4 <= |rest|
    ensures (first + rest)[4 + i..4 + i + 4] == rest[i..i + 4]
  {
  }

  lemma {:induction false} IntsAre(groups: seq<int>, k: nat)
    requires AllInt32(groups) && k < |groups|
    ensures IntsBytes(groups)[4 * k..4 * k + 4] == IntBytes(groups[k])
  {
    if k > 0 {
      IntsAre(groups[1..], k - 1);
      SliceAfter(IntBytes(groups[0]), IntsBytes(groups[1..]), 4 * (k - 1));
    }
  }

  /** A frame that is read whole is dispatched if its type is one of the seven, and discarded
      with the rest of the read if it is not. */
  lemma DispatchedIff(f: Frame)
    requires Sendable(f)
    ensures Feed(Idle, Encode(f)) == if f.kind in {1, 2, 3, 4, 5, 6, 7} then Fed([f], Idle) else Unknown([])
  {
    var b, n := Encode(f), |f.payload|;
    assert b[1..5] == ToBe32(n) && b[5..] == f.payload;
    assert Feed(Idle, b) == FeedBody(f.kind, n, [], f.payload);
    assert [] + f.payload[..n] == f.payload && f.payload[n..] == [];
    assert FeedIdle(f.payload[n..]) == Fed([], Idle);
  }
}
