/** The wire format: a type byte, four length bytes with the highest first, the payload.
    Parse is the meaning of a byte stream; it looks at the whole stream at once. */
module TlvWire {

  type byte = b: int | 0 <= b < 256

  const HEADER := 5
  const MAX_SIZE := 4096  // the size of every buffer a frame is built or received in
  const TEXT: byte := 1
  const FILE_WRITE: byte := 2
  const REGISTER_GROUPS: byte := 3
  const EXECUTE_JOB_ID: byte := 5
  const RESULT: byte := 6
  const FILE_APPEND: byte := 7

  /** The seven types of lines 178-235; 4 is a keep-alive message. */
  predicate Known(kind: byte) { TEXT <= kind <= FILE_APPEND }

  datatype Frame = Frame(kind: byte, payload: seq<byte>)
  datatype Parsed = Parsed(frames: seq<Frame>, rest: seq<byte>)

  /** ntohl on the four bytes of a length. */
  function Be32(s: seq<byte>): nat
    requires |s| == 4
  {
    (s[0] as int) * 0x100_0000 + (s[1] as int) * 0x1_0000 + (s[2] as int) * 0x100 + s[3] as int
  }

  lemma BytesRebuild(n: nat)
    ensures n / 0x100_0000 * 0x100_0000 + n / 0x1_0000 % 0x100 * 0x1_0000 + n / 0x100 % 0x100 * 0x100 + n % 0x100 == n
  {
    var a, b, c := n / 0x100, n / 0x1_0000, n / 0x100_0000;
    assert n == 0x100 * a + n % 0x100;
    assert a == 0x100 * b + a % 0x100;
    assert b == 0x100 * c + b % 0x100;
  }

  /** htonl, as the four bytes it puts on the wire. */
  function ToBe32(n: nat): (s: seq<byte>)
    requires n < 0x1_0000_0000
    ensures |s| == 4 && Be32(s) == n
  {
    BytesRebuild(n);
    [n / 0x100_0000, n / 0x1_0000 % 0x100, n / 0x100 % 0x100, n % 0x100]
  }

  predicate Sendable(f: Frame) { |f.payload| < 0x1_0000_0000 }

  function Encode(f: Frame): seq<byte>
    requires Sendable(f)
  {
    [f.kind] + ToBe32(|f.payload|) + f.payload
  }

  function EncodeAll(fs: seq<Frame>): seq<byte>
    requires forall f :: f in fs ==> Sendable(f)
  {
    if fs == [] then [] else Encode(fs[0]) + EncodeAll(fs[1..])
  }

  /** Does a whole frame stand at the front? */
  predicate HasFrame(s: seq<byte>) {
    |s| >= HEADER && |s| >= HEADER + Be32(s[1..5])
  }

  function FirstFrame(s: seq<byte>): Frame
    requires HasFrame(s)
  {
    Frame(s[0], s[5..5 + Be32(s[1..5])])
  }

  function AfterFrame(s: seq<byte>): seq<byte>
    requires HasFrame(s)
  {
    s[5 + Be32(s[1..5])..]
  }

  function Parse(s: seq<byte>): Parsed
    decreases |s|
  {
    if !HasFrame(s) then Parsed([], s)
    else
      var p := Parse(AfterFrame(s));
      Parsed([FirstFrame(s)] + p.frames, p.rest)
  }

  lemma HasFrameMore(s: seq<byte>, t: seq<byte>)
    requires HasFrame(s)
    ensures HasFrame(s + t) && FirstFrame(s + t) == FirstFrame(s) && AfterFrame(s + t) == AfterFrame(s) + t
  {
    assert (s + t)[1..5] == s[1..5];
    var n := 5 + Be32(s[1..5]);
    assert (s + t)[5..n] == s[5..n];
    assert (s + t)[n..] == s[n..] + t;
  }

  /** Later bytes change nothing about the frames already complete. */
  lemma {:induction false} ParseMore(s: seq<byte>, t: seq<byte>)
    ensures Parse(s + t).frames == Parse(s).frames + Parse(Parse(s).rest + t).frames
    ensures Parse(s + t).rest == Parse(Parse(s).rest + t).rest
    decreases |s|
  {
    if HasFrame(s) {
      HasFrameMore(s, t);
      ParseMore(AfterFrame(s), t);
    }
  }

  lemma {:induction false} RestHasNoFrame(s: seq<byte>)
    ensures !HasFrame(Parse(s).rest)
    decreases |s|
  {
    if HasFrame(s) {
      RestHasNoFrame(AfterFrame(s));
    }
  }

  lemma ParseEncode(f: Frame, t: seq<byte>)
    requires Sendable(f)
    ensures HasFrame(Encode(f) + t) && FirstFrame(Encode(f) + t) == f && AfterFrame(Encode(f) + t) == t
  {
    var s := Encode(f) + t;
    assert s[1..5] == ToBe32(|f.payload|);
    assert s[5..5 + |f.payload|] == f.payload;
    assert s[5 + |f.payload|..] == t;
  }

  /** Reading back what was written. */
  lemma {:induction false} ParseEncodeAll(fs: seq<Frame>)
    requires forall f :: f in fs ==> Sendable(f)
    ensures Parse(EncodeAll(fs)) == Parsed(fs, [])
  {
    if fs != [] {
      assert EncodeAll(fs) == Encode(fs[0]) + EncodeAll(fs[1..]);
      ParseEncode(fs[0], EncodeAll(fs[1..]));
      ParseEncodeAll(fs[1..]);
    }
  }

  // ---- Byte accounting ----

  function FrameBytes(fs: seq<Frame>): nat {
    if fs == [] then 0 else HEADER + |fs[0].payload| + FrameBytes(fs[1..])
  }

  lemma {:induction false} FrameBytesAppend(a: seq<Frame>, b: seq<Frame>)
    ensures FrameBytes(a + b) == FrameBytes(a) + FrameBytes(b)
  {
    if a == [] {
      assert a + b == b;
    } else {
      assert (a + b)[1..] == a[1..] + b;
      FrameBytesAppend(a[1..], b);
    }
  }

  lemma {:induction false} ParseBytes(s: seq<byte>)
    ensures FrameBytes(Parse(s).frames) + |Parse(s).rest| == |s|
    decreases |s|
  {
    if HasFrame(s) {
      ParseBytes(AfterFrame(s));
      assert Parse(s).frames[1..] == Parse(AfterFrame(s)).frames;
    }
  }
}
