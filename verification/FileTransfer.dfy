/** How the server ships a chunk of the data set to a client: client_Handler cuts it into
    frames, the client reassembles them and its file handlers rebuild the file. */
module FileTransfer {
  import opened TlvWire
  import opened TlvMachine

  const FILE_CHUNK := 64
  const NAME_SIZE := 10

  /** The name b.txt in a buffer of ten bytes. */
  const NAME: seq<byte> := [98, 46, 116, 120, 116, 0, 0, 0, 0, 0]
  const TARGET: seq<byte> := [98, 46, 116, 120, 116]

  type Files = map<seq<byte>, seq<byte>>

  // ---- The handlers ----

  function UpToNul(s: seq<byte>): seq<byte> {
    if s == [] || s[0] == 0 then [] else [s[0]] + UpToNul(s[1..])
  }

  /** strncpy stays within the payload: it holds ten bytes, or a nul before that. */
  predicate Named(data: seq<byte>) { |data| >= NAME_SIZE || 0 in data }

  /** strncpy of ten bytes into a zeroed buffer. */
  function NameOf(data: seq<byte>): seq<byte>
    requires Named(data)
  {
    UpToNul(data[..Min(NAME_SIZE, |data|)])
  }

  function AfterName(data: seq<byte>): seq<byte> {
    if |data| - NAME_SIZE > 0 then data[NAME_SIZE..] else []
  }

  function ContentOf(files: Files, name: seq<byte>): seq<byte> {
    if name in files then files[name] else []
  }

  class FileStore {
    var files: Files

    constructor ()
      ensures files == map[]
    {
      files := map[];
    }

    /** Handle_file_write: the file is created or truncated, then written if bytes follow
        the name. */
    method HandleFileWrite(data: seq<byte>)
      requires Named(data)
      modifies this
      ensures files == Deliver(old(files), Frame(FILE_WRITE, data))
    {
      var name := NameOf(data);
      files := files[name := []];
      if |data| - NAME_SIZE > 0 {
        files := files[name := data[NAME_SIZE..]];
      }
    }

    method HandleFileAppend(data: seq<byte>)
      requires Named(data)
      modifies this
      ensures files == Deliver(old(files), Frame(FILE_APPEND, data))
    {
      var name := NameOf(data);
      var was := ContentOf(files, name);
      files := files[name := was];
      if |data| - NAME_SIZE > 0 {
        files := files[name := was + data[NAME_SIZE..]];
      } else {
        assert was + AfterName(data) == was;
      }
      assert files == old(files)[name := was + AfterName(data)];
    }
  }

  predicate IsFile(f: Frame) { f.kind == FILE_WRITE || f.kind == FILE_APPEND }

  /** What a frame does to the client's files; only the two file frames touch them. */
  function Deliver(files: Files, f: Frame): Files
    requires IsFile(f) ==> Named(f.payload)
  {
    if f.kind == FILE_WRITE then files[NameOf(f.payload) := AfterName(f.payload)]
    else if f.kind == FILE_APPEND then
      var name := NameOf(f.payload);
      files[name := ContentOf(files, name) + AfterName(f.payload)]
    else files
  }

  /** A write creates or empties the named file, both kinds add the bytes after the name to
      it, and nothing else changes any file. */
  lemma DeliverEffect(files: Files, f: Frame, name: seq<byte>)
    requires IsFile(f) ==> Named(f.payload)
    ensures var after := Deliver(files, f);
            if f.kind in {2, 7} && name == NameOf(f.payload) then
              && name in after
              && after[name] == (if f.kind == 7 && name in files then files[name] else [])
                                + if |f.payload| > 10 then f.payload[10..] else []
            else (name in after <==> name in files) && (name in files ==> after[name] == files[name])
  {
  }

  /** The name is what stands before the first nul of the first ten bytes. */
  lemma {:induction false} NameEnds(s: seq<byte>)
    ensures UpToNul(s) <= s && 0 !in UpToNul(s)
    ensures |UpToNul(s)| < |s| ==> s[|UpToNul(s)|] == 0
  {
    if s != [] && s[0] != 0 {
      NameEnds(s[1..]);
    }
  }

  lemma NameOfIs(data: seq<byte>)
    requires Named(data)
    ensures var name := NameOf(data);
            && |name| <= 10 && name <= data && 0 !in name
            && (|name| < 10 ==> |name| < |data| && data[|name|] == 0)
  {
    NameEnds(data[..Min(NAME_SIZE, |data|)]);
  }

  predicate Deliverable(fs: seq<Frame>) {
    forall f :: f in fs && IsFile(f) ==> Named(f.payload)
  }

  function DeliverAll(files: Files, fs: seq<Frame>): Files
    requires Deliverable(fs)
    decreases fs
  {
    if fs == [] then files else DeliverAll(Deliver(files, fs[0]), fs[1..])
  }

  // ---- The sender ----

  function Min(a: int, b: int): int { if a < b then a else b }

  function ChunkFrame(file: seq<byte>, i: nat): Frame
    requires i < |file|
  {
    Frame(if i == 0 then FILE_WRITE else FILE_APPEND, NAME + file[i..Min(i + FILE_CHUNK, |file|)])
  }

  /** The frames that carry the file from offset i on. */
  function ChunkFrames(file: seq<byte>, i: nat): (fs: seq<Frame>)
    decreases |file| - i
  {
    if i >= |file| then [] else [ChunkFrame(file, i)] + ChunkFrames(file, i + FILE_CHUNK)
  }

  function ExecuteFrame(jobId: nat, operation: nat): Frame
    requires jobId < 0x8000_0000 && operation < 0x8000_0000
  {
    Frame(EXECUTE_JOB_ID, ToBe32(jobId) + ToBe32(operation))
  }

  function JobFrames(file: seq<byte>, jobId: nat, operation: nat): seq<Frame>
    requires jobId < 0x8000_0000 && operation < 0x8000_0000
  {
    ChunkFrames(file, 0) + [ExecuteFrame(jobId, operation)]
  }

  /** Frames short enough for a split header to be read back, of known types. */
  predicate Small(fs: seq<Frame>) {
    forall k :: 0 <= k < |fs| ==> Known(fs[k].kind) && |fs[k].payload| < 256
  }

  lemma {:induction false} ChunkFramesSmall(file: seq<byte>, i: nat)
    ensures Small(ChunkFrames(file, i)) && Deliverable(ChunkFrames(file, i))
    decreases |file| - i
  {
    if i < |file| {
      ChunkFramesSmall(file, i + FILE_CHUNK);
    }
  }

  lemma JobFramesSmall(file: seq<byte>, jobId: nat, operation: nat)
    requires jobId < 0x8000_0000 && operation < 0x8000_0000
    ensures Small(JobFrames(file, jobId, operation)) && Deliverable(JobFrames(file, jobId, operation))
  {
    ChunkFramesSmall(file, 0);
  }

  lemma {:induction false} EncodeAllAppend(fs: seq<Frame>, f: Frame)
    requires (forall g :: g in fs ==> Sendable(g)) && Sendable(f)
    ensures forall g :: g in fs + [f] ==> Sendable(g)
    ensures EncodeAll(fs + [f]) == EncodeAll(fs) + Encode(f)
  {
    if fs == [] {
      assert fs + [f] == [f];
      assert [f][1..] == [];
    } else {
      assert (fs + [f])[1..] == fs[1..] + [f];
      EncodeAllAppend(fs[1..], f);
    }
  }

  method Memcpy(dst: array<byte>, at: nat, src: seq<byte>)
    requires at + |src| <= dst.Length
    modifies dst
    ensures dst[..at + |src|] == old(dst[..at]) + src
    ensures dst[at + |src|..] == old(dst[at + |src|..])
  {
    forall k | 0 <= k < |src| {
      dst[at + k] := src[k];
    }
  }

  /** Lines 122-127, 139-145 and 170-174: type, length and payload into the buffer. */
  method FillFrame(sendBuff: array<byte>, kind: byte, len: nat, first: seq<byte>, second: seq<byte>)
    requires len < 0x1_0000_0000 && HEADER + |first| + |second| <= sendBuff.Length
    modifies sendBuff
    ensures sendBuff[..HEADER + |first| + |second|] == [kind] + ToBe32(len) + (first + second)
  {
    Memcpy(sendBuff, 0, [kind]);
    Memcpy(sendBuff, 1, ToBe32(len));
    Memcpy(sendBuff, HEADER, first);
    Memcpy(sendBuff, HEADER + |first|, second);
  }

  /** client_Handler, with the bytes of the file it opened; sent is what it writes to the
      socket. Each header announces the payload that follows it. */
  method ClientHandler(file: seq<byte>, jobId: nat, operation: nat) returns (sent: seq<byte>)
    requires jobId < 0x8000_0000 && operation < 0x8000_0000
    ensures forall f :: f in JobFrames(file, jobId, operation) ==> Sendable(f)
    ensures sent == EncodeAll(JobFrames(file, jobId, operation))
  {
    var sendBuff := new byte[MAX_SIZE](_ => 0);
    sent := [];
    var i := 0;
    ghost var done: seq<Frame> := [];
    while i < |file|
      invariant 0 <= i && sendBuff.Length == MAX_SIZE
      invariant done + ChunkFrames(file, i) == ChunkFrames(file, 0)
      invariant (forall f :: f in done ==> Sendable(f)) && sent == EncodeAll(done)
      decreases |file| - i
    {
      var len := if |file| - i > FILE_CHUNK then NAME_SIZE + FILE_CHUNK else NAME_SIZE + (|file| - i);
      var copied := Min(FILE_CHUNK, |file| - i);
      ghost var f := ChunkFrame(file, i);
      if i == 0 {
        FillFrame(sendBuff, FILE_WRITE, len, NAME, file[i..i + copied]);
      } else {
        FillFrame(sendBuff, FILE_APPEND, len, NAME, file[i..i + copied]);
      }
      assert sendBuff[..copied + NAME_SIZE + HEADER] == Encode(f);
      EncodeAllAppend(done, f);
      NextChunk(file, i, done);
      sent := sent + sendBuff[..copied + NAME_SIZE + HEADER];
      done := done + [f];
      i := if copied < FILE_CHUNK then i + copied else i + FILE_CHUNK;
      forall k | 0 <= k < sendBuff.Length {
        sendBuff[k] := 0;
      }
    }
    FillFrame(sendBuff, EXECUTE_JOB_ID, 8, ToBe32(jobId), ToBe32(operation));
    sent := sent + sendBuff[..HEADER + 8];
    assert done == ChunkFrames(file, 0);
    EncodeAllAppend(done, ExecuteFrame(jobId, operation));
  }

  lemma NextChunk(file: seq<byte>, i: nat, done: seq<Frame>)
    requires i < |file|
    ensures done + ChunkFrames(file, i) == done + [ChunkFrame(file, i)] + ChunkFrames(file, i + FILE_CHUNK)
    ensures |file| - i < FILE_CHUNK ==> ChunkFrames(file, |file|) == ChunkFrames(file, i + FILE_CHUNK)
  {
  }

  // ---- What arrives ----

  /** One chunk more on the target. */
  lemma DeliverChunk(files: Files, file: seq<byte>, i: nat)
    requires i < |file|
    requires i > 0 ==> ContentOf(files, TARGET) == file[..i]
    ensures ContentOf(Deliver(files, ChunkFrame(file, i)), TARGET) == file[..Min(i + FILE_CHUNK, |file|)]
  {
    var f := ChunkFrame(file, i);
    assert f.payload[..NAME_SIZE] == NAME;
    NameIsTarget();
    assert f.payload[NAME_SIZE..] == file[i..Min(i + FILE_CHUNK, |file|)];
  }

  lemma NameIsTarget()
    ensures UpToNul(NAME) == TARGET
  {
    assert NAME[1..] == [46, 116, 120, 116, 0, 0, 0, 0, 0];
    assert NAME[1..][1..] == [116, 120, 116, 0, 0, 0, 0, 0];
    assert NAME[1..][1..][1..] == [120, 116, 0, 0, 0, 0, 0];
    assert NAME[1..][1..][1..][1..] == [116, 0, 0, 0, 0, 0];
    assert NAME[1..][1..][1..][1..][1..] == [0, 0, 0, 0, 0];
    assert UpToNul(NAME[1..][1..][1..][1..][1..]) == [];
  }

  /** After the first k frames of a file the target holds its first 64 k bytes. */
  lemma {:induction false} DeliverChunks(files: Files, file: seq<byte>, i: nat, k: nat)
    requires k <= |ChunkFrames(file, i)| && (k > 0 || i > 0)
    requires i > 0 ==> ContentOf(files, TARGET) == file[..Min(i, |file|)]
    ensures Deliverable(ChunkFrames(file, i)[..k])
    ensures ContentOf(DeliverAll(files, ChunkFrames(file, i)[..k]), TARGET) == file[..Min(i + 64 * k, |file|)]
    decreases k
  {
    ChunkFramesSmall(file, i);
    if k > 0 {
      var fs := ChunkFrames(file, i);
      DeliverChunk(files, file, i);
      assert fs[0] == ChunkFrame(file, i) && fs[1..] == ChunkFrames(file, i + FILE_CHUNK);
      DeliverChunks(Deliver(files, fs[0]), file, i + FILE_CHUNK, k - 1);
      DeliverFirst(files, fs, k);
    } else {
      assert ChunkFrames(file, i)[..0] == [];
    }
  }

  lemma DeliverFirst(files: Files, fs: seq<Frame>, k: nat)
    requires 0 < k <= |fs| && Deliverable(fs)
    ensures Deliverable(fs[..k]) && Deliverable(fs[1..][..k - 1])
    ensures DeliverAll(files, fs[..k]) == DeliverAll(Deliver(files, fs[0]), fs[1..][..k - 1])
  {
    assert fs[..k][1..] == fs[1..][..k - 1];
  }

  lemma {:induction false} ChunkCount(file: seq<byte>, i: nat)
    ensures |ChunkFrames(file, i)| == if i >= |file| then 0 else (|file| - i + 63) / 64
    decreases |file| - i
  {
    if i < |file| {
      ChunkCount(file, i + FILE_CHUNK);
    }
  }

  // ---- Which reads are admissible for the sender's stream ----

  /** No read that completes a split header holds a header's worth of bytes after it. */
  predicate NoLateBody(past: seq<byte>, cuts: seq<seq<byte>>)
    decreases cuts
  {
    cuts == [] ||
    (var rest := Parse(past).rest;
     && (0 < |rest| < HEADER <= |rest| + |cuts[0]| ==> |rest| + |cuts[0]| < 2 * HEADER)
     && NoLateBody(past + cuts[0], cuts[1..]))
  }

  /** A part of a stream of frames parses into the first of them, and what is left over
      is a part of the next. */
  lemma {:induction false} ParsePart(s: seq<byte>, t: seq<byte>, fs: seq<Frame>)
    requires (forall f :: f in fs ==> Sendable(f)) && s + t == EncodeAll(fs)
    ensures var p := Parse(s);
            && |p.frames| <= |fs| && p.frames == fs[..|p.frames|]
            && (|p.rest| >= HEADER ==> |p.frames| < |fs| && Be32(p.rest[1..5]) == |fs[|p.frames|].payload|)
    decreases fs
  {
    if fs == [] {
      assert s == [];
    } else {
      var f, later := fs[0], EncodeAll(fs[1..]);
      var n := |Encode(f)|;
      assert s + t == Encode(f) + later;
      ParseEncode(f, later);
      if |s| >= HEADER {
        assert s[1..5] == (s + t)[1..5];
        assert (s + t)[1..5] == ToBe32(|f.payload|);
      }
      if |s| >= n {
        assert HasFrame(s);
        HasFrameMore(s, t);
        assert AfterFrame(s) + t == later;
        ParsePart(AfterFrame(s), t, fs[1..]);
      }
    }
  }

  /** The length of a header that is completed by b is that of a frame of the stream. */
  lemma HeaderLength(past: seq<byte>, b: seq<byte>, later: seq<byte>, fs: seq<Frame>)
    requires Small(fs) && (forall f :: f in fs ==> Sendable(f)) && past + b + later == EncodeAll(fs)
    requires HEADER <= |Parse(past).rest| + |b| < 2 * HEADER
    ensures Be32((Parse(past).rest + b)[1..5]) < 256
  {
    var s := Parse(past).rest + b;
    ParseMore(past, b);
    ParsePart(past + b, later, fs);
    if !HasFrame(s) {
      assert Parse(past + b).rest == s;
    }
  }

  lemma LaterKnown(first: seq<Frame>, news: seq<Frame>, all: seq<Frame>)
    requires Small(all) && |first + news| <= |all| && first + news == all[..|first + news|]
    ensures AllKnown(news)
  {
    forall k | 0 <= k < |news| ensures Known(news[k].kind) {
      assert news[k] == (first + news)[|first| + k] == all[|first| + k];
    }
  }

  lemma NewFramesKnown(past: seq<byte>, b: seq<byte>, later: seq<byte>, fs: seq<Frame>)
    requires Small(fs) && (forall f :: f in fs ==> Sendable(f)) && past + b + later == EncodeAll(fs)
    ensures AllKnown(Parse(Parse(past).rest + b).frames)
  {
    ParseMore(past, b);
    ParsePart(past + b, later, fs);
    LaterKnown(Parse(past).frames, Parse(Parse(past).rest + b).frames, fs);
  }

  /** For a stream of small frames of known types only the late bodies matter. */
  lemma {:induction false} SmallAdmissible(past: seq<byte>, cuts: seq<seq<byte>>, fs: seq<Frame>)
    requires Small(fs) && (forall f :: f in fs ==> Sendable(f)) && past + Concat(cuts) == EncodeAll(fs)
    ensures AdmissibleAll(past, cuts) <==> NoLateBody(past, cuts)
    decreases cuts
  {
    if cuts != [] {
      var rest, b, later := Parse(past).rest, cuts[0], Concat(cuts[1..]);
      assert past + Concat(cuts) == past + b + later;
      NewFramesKnown(past, b, later, fs);
      if HEADER <= |rest| + |b| < 2 * HEADER {
        HeaderLength(past, b, later, fs);
      }
      SmallAdmissible(past + b, cuts[1..], fs);
    }
  }

  // ---- The whole transfer ----

  /** The frames before the last one. */
  function Before(fs: seq<Frame>): seq<Frame>
    requires fs != []
  {
    fs[..|fs| - 1]
  }

  /** Whatever the network does with what client_Handler sends, as long as no read holds a
      late body: the client makes exactly the sender's calls, and the reads without late
      bodies are exactly those that keep it in step. */
  lemma TransferCalls(file: seq<byte>, jobId: nat, operation: nat, cuts: seq<seq<byte>>)
    requires jobId < 0x8000_0000 && operation < 0x8000_0000
    requires (forall f :: f in JobFrames(file, jobId, operation) ==> Sendable(f))
    requires Concat(cuts) == EncodeAll(JobFrames(file, jobId, operation))
    ensures NoLateBody([], cuts) <==> InStepAll(Idle, [], cuts)
    ensures NoLateBody([], cuts) ==> FeedAll(Idle, cuts) == Fed(JobFrames(file, jobId, operation), Idle)
  {
    var fs := JobFrames(file, jobId, operation);
    JobFramesSmall(file, jobId, operation);
    assert [] + Concat(cuts) == EncodeAll(fs);
    SmallAdmissible([], cuts, fs);
    InStepIffAdmissible(Idle, [], cuts);
    if NoLateBody([], cuts) {
      ReadsParse(cuts);
      ParseEncodeAll(fs);
    }
  }

  /** When the client is told to execute, its target file is the file that was sent; and
      at no earlier call was it, for every file that is not empty and whatever files the
      client had before. */
  lemma TransferRebuildsFile(files: Files, file: seq<byte>, jobId: nat, operation: nat)
    requires jobId < 0x8000_0000 && operation < 0x8000_0000 && file != []
    ensures var fs := JobFrames(file, jobId, operation);
            && Deliverable(Before(fs)) && fs[|fs| - 1] == ExecuteFrame(jobId, operation)
            && (forall k :: 0 <= k < |Before(fs)| ==> Before(fs)[k].kind != EXECUTE_JOB_ID)
            && ContentOf(DeliverAll(files, Before(fs)), TARGET) == file
            && (forall k :: 0 < k < |Before(fs)| ==>
                  Deliverable(Before(fs)[..k]) && ContentOf(DeliverAll(files, Before(fs)[..k]), TARGET) < file)
  {
    var fs, cs := JobFrames(file, jobId, operation), ChunkFrames(file, 0);
    ChunkFramesSmall(file, 0);
    ChunkFramesKinds(file, 0);
    ChunkCount(file, 0);
    assert Before(fs) == cs;
    assert cs[..|cs|] == cs;
    DeliverChunks(files, file, 0, |cs|);
    assert file[..|file|] == file;
    forall k | 0 < k < |cs|
      ensures Deliverable(cs[..k]) && ContentOf(DeliverAll(files, cs[..k]), TARGET) < file
    {
      DeliverChunks(files, file, 0, k);
    }
  }

  lemma {:induction false} ChunkFramesKinds(file: seq<byte>, i: nat)
    ensures forall k :: 0 <= k < |ChunkFrames(file, i)| ==> ChunkFrames(file, i)[k].kind != EXECUTE_JOB_ID
    decreases |file| - i
  {
    if i < |file| {
      ChunkFramesKinds(file, i + FILE_CHUNK);
    }
  }

  /** An empty file sends no file frame, so the target keeps what it held. */
  lemma EmptyFileLeavesTarget(jobId: nat, operation: nat)
    requires jobId < 0x8000_0000 && operation < 0x8000_0000
    ensures JobFrames([], jobId, operation) == [ExecuteFrame(jobId, operation)]
    ensures forall files: Files :: Deliver(files, ExecuteFrame(jobId, operation)) == files
  {
  }
}
