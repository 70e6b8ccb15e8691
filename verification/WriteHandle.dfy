/** The file a WebDAV client writes to: a random-access buffer that is uploaded once, on flush
    (web-davserver/src/fs.rs). */
module WriteHandle {
  import opened Chunks
  import opened TransferMessages
  import opened VirtualPath
  import opened Options

  const CHUNK_SIZE: nat := 16 * 1024
  const U64_LIMIT: nat := 0x1_0000_0000_0000_0000

  // ----- the buffer ---------------------------------------------------------------------------------

  /** std::io::Cursor over a byte vector. */
  datatype Buffer = Buffer(content: seq<byte>, pos: nat)

  datatype SeekFrom = Start(n: nat) | End(delta: int) | Current(delta: int)

  datatype BufferOp = Write(data: seq<byte>) | Seek(to: SeekFrom) | Read(count: nat)

  const EMPTY := Buffer([], 0)

  function SeekTarget(b: Buffer, to: SeekFrom): Option<nat> {
    var p: int := match to case Start(n) => n case End(d) => |b.content| + d case Current(d) => b.pos + d;
    if 0 <= p < U64_LIMIT then Some(p) else None
  }

  function ReadData(b: Buffer, count: nat): seq<byte> {
    if b.pos >= |b.content| then []
    else b.content[b.pos..if b.pos + count < |b.content| then b.pos + count else |b.content|]
  }

  /** One operation. Some versions of the standard library pad the vector up to the cursor even when
      nothing is written; padsEmpty says whether this one does. */
  function Apply(b: Buffer, op: BufferOp, padsEmpty: bool): Buffer {
    match op
    case Write(data) =>
      if data == [] then (if padsEmpty then b.(content := PadTo(b.content, b.pos)) else b)
      else Buffer(WriteAt(b.content, b.pos, data), b.pos + |data|)
    case Seek(to) =>
      (match SeekTarget(b, to) case Some(p) => b.(pos := p) case None => b)
    case Read(count) => b.(pos := b.pos + |ReadData(b, count)|)
  }

  function Run(ops: seq<BufferOp>, padsEmpty: bool): Buffer {
    if ops == [] then EMPTY
    else Apply(Run(ops[..|ops| - 1], padsEmpty), ops[|ops| - 1], padsEmpty)
  }

  /** Operation k is a write that stores a byte at i. */
  predicate Wrote(ops: seq<BufferOp>, k: nat, i: nat, padsEmpty: bool) {
    && k < |ops| && ops[k].Write?
    && Run(ops[..k], padsEmpty).pos <= i < Run(ops[..k], padsEmpty).pos + |ops[k].data|
  }

  /** Operation k is the last write to byte i. */
  predicate LastWrote(ops: seq<BufferOp>, k: nat, i: nat, padsEmpty: bool) {
    Wrote(ops, k, i, padsEmpty) && forall m :: k < m < |ops| ==> !Wrote(ops, m, i, padsEmpty)
  }

  lemma {:induction false} WroteExtend(ops: seq<BufferOp>, k: nat, i: nat, padsEmpty: bool)
    requires ops != []
    ensures k < |ops| - 1 ==> (Wrote(ops, k, i, padsEmpty) <==> Wrote(ops[..|ops| - 1], k, i, padsEmpty))
  {
    if k < |ops| - 1 {
      assert ops[..|ops| - 1][..k] == ops[..k];
    }
  }

  /** After any sequence of seeks, reads and writes each byte is the one the last write to it stored,
      and a byte no write stored is zero. */
  lemma {:induction false} LastWriteWins(ops: seq<BufferOp>, i: nat, padsEmpty: bool)
    requires i < |Run(ops, padsEmpty).content|
    ensures forall k: nat :: LastWrote(ops, k, i, padsEmpty) ==>
              Run(ops, padsEmpty).content[i] == ops[k].data[i - Run(ops[..k], padsEmpty).pos]
    ensures (forall k: nat :: !Wrote(ops, k, i, padsEmpty)) ==> Run(ops, padsEmpty).content[i] == 0
  {
    hide Run;
    forall k: nat | LastWrote(ops, k, i, padsEmpty)
      ensures k < |ops| && ops[k].Write? && Wrote(ops, k, i, padsEmpty)
      ensures Run(ops, padsEmpty).content[i] == ops[k].data[i - Run(ops[..k], padsEmpty).pos]
    {
      StoredByte(ops, k, i, padsEmpty);
    }
    if forall k: nat :: !Wrote(ops, k, i, padsEmpty) {
      GapByte(ops, i, padsEmpty);
    }
  }

  lemma {:induction false} StoredByte(ops: seq<BufferOp>, k: nat, i: nat, padsEmpty: bool)
    requires LastWrote(ops, k, i, padsEmpty)
    ensures i < |Run(ops, padsEmpty).content|
    ensures Run(ops, padsEmpty).content[i] == ops[k].data[i - Run(ops[..k], padsEmpty).pos]
  {
    hide Run, Wrote;
    var n := |ops| - 1;
    WroteBounds(ops, i, padsEmpty);
    WroteInside(ops, k, i, padsEmpty);
    ApplyByte(ops, n, i, padsEmpty);
    if k < n {
      var init := ops[..n];
      forall m: nat | k <= m < n ensures Wrote(ops, m, i, padsEmpty) <==> Wrote(init, m, i, padsEmpty) {
        WroteExtend(ops, m, i, padsEmpty);
      }
      StoredByte(init, k, i, padsEmpty);
      assert init[..k] == ops[..k];
    }
  }

  lemma {:induction false} GapByte(ops: seq<BufferOp>, i: nat, padsEmpty: bool)
    requires i < |Run(ops, padsEmpty).content| && forall k: nat :: !Wrote(ops, k, i, padsEmpty)
    ensures Run(ops, padsEmpty).content[i] == 0
  {
    hide Wrote, Apply;
    if ops != [] {
      var n := |ops| - 1;
      var init := ops[..n];
      ApplyByte(ops, n, i, padsEmpty);
      if i < |Run(init, padsEmpty).content| {
        WroteBounds(init, i, padsEmpty);
        forall k: nat ensures !Wrote(init, k, i, padsEmpty) {
          WroteExtend(ops, k, i, padsEmpty);
        }
        GapByte(init, i, padsEmpty);
      }
    }
  }

  lemma {:induction false} WroteBounds(ops: seq<BufferOp>, i: nat, padsEmpty: bool)
    ensures forall k: nat :: Wrote(ops, k, i, padsEmpty) ==> k < |ops|
  {
  }

  /** Byte i after the last operation. */
  lemma {:induction false} ApplyByte(ops: seq<BufferOp>, n: nat, i: nat, padsEmpty: bool)
    requires n == |ops| - 1 && i < |Run(ops, padsEmpty).content|
    ensures var before := Run(ops[..n], padsEmpty);
            && |before.content| <= |Run(ops, padsEmpty).content|
            && Run(ops, padsEmpty).content[i] ==
               if Wrote(ops, n, i, padsEmpty) then ops[n].data[i - before.pos]
               else if i < |before.content| then before.content[i]
               else 0
  {
  }

  /** Every stored byte lies inside the content. */
  lemma {:induction false} WroteInside(ops: seq<BufferOp>, k: nat, i: nat, padsEmpty: bool)
    requires Wrote(ops, k, i, padsEmpty)
    ensures i < |Run(ops, padsEmpty).content|
  {
    hide WriteAt;
    var n := |ops| - 1;
    if k < n {
      WroteExtend(ops, k, i, padsEmpty);
      WroteInside(ops[..n], k, i, padsEmpty);
    }
  }

  /** Operation k is an empty write just after byte last. */
  predicate Padded(ops: seq<BufferOp>, k: nat, last: nat, padsEmpty: bool) {
    padsEmpty && k < |ops| && ops[k] == Write([]) && Run(ops[..k], padsEmpty).pos == last + 1
  }

  /** The content ends with the last byte some write stored, or, where empty writes pad, at the position
      of such a write. */
  lemma {:induction false} ContentEnd(ops: seq<BufferOp>, last: nat, padsEmpty: bool)
    requires |Run(ops, padsEmpty).content| == last + 1
    ensures exists k: nat :: Wrote(ops, k, last, padsEmpty) || Padded(ops, k, last, padsEmpty)
  {
    hide Apply, Wrote, Padded;
    var n := |ops| - 1;
    if !Wrote(ops, n, last, padsEmpty) && !Padded(ops, n, last, padsEmpty) {
      EndKept(ops, n, last, padsEmpty);
      ContentEnd(ops[..n], last, padsEmpty);
      var k: nat :| Wrote(ops[..n], k, last, padsEmpty) || Padded(ops[..n], k, last, padsEmpty);
      WroteBounds(ops[..n], last, padsEmpty);
      PaddedExtend(ops, k, last, padsEmpty);
      WroteExtend(ops, k, last, padsEmpty);
    }
  }

  lemma {:induction false} PaddedExtend(ops: seq<BufferOp>, k: nat, last: nat, padsEmpty: bool)
    requires ops != []
    ensures Padded(ops[..|ops| - 1], k, last, padsEmpty) ==> k < |ops| - 1 && Padded(ops, k, last, padsEmpty)
  {
    if k < |ops| - 1 {
      assert ops[..|ops| - 1][..k] == ops[..k];
    }
  }

  /** A last operation that neither stores the last byte nor pads up to it keeps the length. */
  lemma {:induction false} EndKept(ops: seq<BufferOp>, n: nat, last: nat, padsEmpty: bool)
    requires |ops| == n + 1 && |Run(ops, padsEmpty).content| == last + 1
    requires !Wrote(ops, n, last, padsEmpty) && !Padded(ops, n, last, padsEmpty)
    ensures |Run(ops[..n], padsEmpty).content| == last + 1
  {
    hide WriteAt;
    assert Run(ops, padsEmpty) == Apply(Run(ops[..n], padsEmpty), ops[n], padsEmpty);
  }

  // ----- where a seek goes --------------------------------------------------------------------------------

  lemma {:induction false} RunLast(ops: seq<BufferOp>, op: BufferOp, padsEmpty: bool)
    ensures Run(ops + [op], padsEmpty) == Apply(Run(ops, padsEmpty), op, padsEmpty)
  {
    hide Apply;
    assert (ops + [op])[..|ops|] == ops;
  }

  /** After any operations a seek moves to its target, counted from the start, the end of the content or the
      cursor, if that is a 64-bit offset, and nowhere otherwise; it never changes the content. */
  lemma {:induction false} SeekGoes(ops: seq<BufferOp>, to: SeekFrom, padsEmpty: bool)
    ensures var b, t := Run(ops, padsEmpty), Run(ops + [Seek(to)], padsEmpty);
            var target: int := match to
                               case Start(n) => n
                               case End(delta) => |b.content| + delta
                               case Current(delta) => b.pos + delta;
            && t.content == b.content
            && t.pos == if 0 <= target <= 0xFFFF_FFFF_FFFF_FFFF then target else b.pos
  {
    hide Run;
    RunLast(ops, Seek(to), padsEmpty);
  }

  /** After any operations, a write after a seek to n stores its bytes at n and keeps all others, with zeros
      in a gap. */
  lemma {:induction false} SeekThenWrite(ops: seq<BufferOp>, n: nat, data: seq<byte>, padsEmpty: bool)
    requires n <= 0xFFFF_FFFF_FFFF_FFFF && data != []
    ensures var b, t := Run(ops, padsEmpty), Run(ops + [Seek(Start(n))] + [Write(data)], padsEmpty);
            && |t.content| == Max(|b.content|, n + |data|) && t.pos == n + |data|
            && t.content[n..n + |data|] == data
            && forall i :: 0 <= i < |t.content| && !(n <= i < n + |data|) ==>
                 t.content[i] == if i < |b.content| then b.content[i] else 0
  {
    hide Run, WriteAt;
    SeekGoes(ops, Start(n), padsEmpty);
    RunLast(ops + [Seek(Start(n))], Write(data), padsEmpty);
  }

  /** And a read after a seek back to n returns them. */
  lemma {:induction false} ReadBack(ops: seq<BufferOp>, n: nat, data: seq<byte>, padsEmpty: bool)
    requires n <= 0xFFFF_FFFF_FFFF_FFFF && data != []
    ensures ReadData(Run(ops + [Seek(Start(n))] + [Write(data)] + [Seek(Start(n))], padsEmpty), |data|) == data
  {
    hide Run;
    SeekThenWrite(ops, n, data, padsEmpty);
    SeekGoes(ops + [Seek(Start(n))] + [Write(data)], Start(n), padsEmpty);
  }

  // ----- the upload -----------------------------------------------------------------------------------

  datatype Upload = Upload(id: Id, resource: string, path: string, data: seq<byte>)

  /** The 16 KiB pieces of data from an offset on; the last may be shorter. */
  function ChunksFrom(data: seq<byte>, from: nat): seq<Chunk>
    requires from <= |data|
    decreases |data| - from
  {
    if from == |data| then []
    else
      var end := if from + CHUNK_SIZE < |data| then from + CHUNK_SIZE else |data|;
      [Chunk(from, data[from..end])] + ChunksFrom(data, end)
  }

  lemma {:induction false} ChunksTile(data: seq<byte>, from: nat)
    requires from <= |data|
    ensures Tiles(data, from, |data|, ChunksFrom(data, from), 16384)
    ensures |ChunksFrom(data, from)| == (|data| - from + 16383) / 16384
    decreases |data| - from
  {
    if from < |data| {
      var end := if from + CHUNK_SIZE < |data| then from + CHUNK_SIZE else |data|;
      ChunksTile(data, end);
      assert ChunksFrom(data, from)[1..] == ChunksFrom(data, end);
    }
  }

  function RequestOf(u: Upload): Msg {
    FileUploadRequest(u.resource, SplitLast(u.path).parent, SplitLast(u.path).name, |u.data|, u.id)
  }

  /** What follows an accepted request. */
  function TailOf(u: Upload): seq<Msg> {
    ChunkMsgs(u.id, ChunksFrom(u.data, 0)) + [FileTransferComplete(u.id)]
  }

  datatype FlushResult = Flushed | Forbidden | GeneralFailure

  predicate IsAcceptance(reply: Option<Msg>) {
    reply.Some? && reply.value.FileTransferResponse? && reply.value.status.Accepted?
  }

  predicate IsRejection(reply: Option<Msg>) {
    reply.Some? && reply.value.FileTransferResponse? && reply.value.status.Rejected?
  }

  /** Sends data piece by piece, adding up the offset. */
  method SendChunks(id: Id, data: seq<byte>) returns (sent: seq<Msg>)
    ensures sent == ChunkMsgs(id, ChunksFrom(data, 0))
  {
    var rest, offset: nat := data, 0;
    sent := [];
    while rest != []
      invariant offset <= |data| && rest == data[offset..]
      invariant sent + ChunkMsgs(id, ChunksFrom(data, offset)) == ChunkMsgs(id, ChunksFrom(data, 0))
      decreases |rest|
    {
      var piece := if CHUNK_SIZE < |rest| then rest[..CHUNK_SIZE] else rest;
      ghost var after := ChunksFrom(data, offset + |piece|);
      assert piece == data[offset..offset + |piece|];
      assert ChunksFrom(data, offset) == [Chunk(offset, piece)] + after;
      ChunkMsgsStep(id, Chunk(offset, piece), after);
      assert sent + ([FileChunk(id, offset, piece)] + ChunkMsgs(id, after))
          == sent + [FileChunk(id, offset, piece)] + ChunkMsgs(id, after);
      sent := sent + [FileChunk(id, offset, piece)];
      rest, offset := rest[|piece|..], offset + |piece|;
    }
    assert ChunkMsgs(id, []) == [];
  }

  /** A write handle as a value. */
  datatype Handle = Handle(buf: Buffer, drive: Option<string>)

  datatype Flushing = Flushing(handle: Handle, sent: seq<Msg>, result: FlushResult)

  /** What a flush of a write handle does: all of it once, nothing from then on. */
  function FlushStep(path: string, h: Handle, id: Id, reply: Option<Msg>): Flushing {
    if h.drive.None? then Flushing(h, [], Flushed)
    else
      var u := Upload(id, h.drive.value, path, h.buf.content);
      Flushing(Handle(Buffer([], h.buf.pos), None),
               [RequestOf(u)] + (if IsAcceptance(reply) then TailOf(u) else []),
               if IsAcceptance(reply) then Flushed else if IsRejection(reply) then Forbidden else GeneralFailure)
  }

  class DavFile {
    var content: seq<byte>
    var pos: nat
    /** The drive's resource id; taken by the first flush. */
    var drive: Option<string>
    const path: string
    const isWrite: bool
    const padsEmpty: bool

    constructor NewWrite(resource: string, path: string, padsEmpty: bool)
      ensures Buf() == EMPTY && drive == Some(resource) && isWrite
      ensures this.path == path && this.padsEmpty == padsEmpty
    {
      content, pos := [], 0;
      drive := Some(resource);
      this.path, isWrite, this.padsEmpty := path, true, padsEmpty;
    }

    constructor NewRead(data: seq<byte>, padsEmpty: bool)
      ensures Buf() == Buffer(data, 0) && drive == None && !isWrite && this.padsEmpty == padsEmpty
    {
      content, pos := data, 0;
      drive := None;
      path, isWrite, this.padsEmpty := "", false, padsEmpty;
    }

    function Buf(): Buffer
      reads this
    {
      Buffer(content, pos)
    }

    method WriteBytes(data: seq<byte>)
      modifies this`content, this`pos
      ensures Buf() == if isWrite then Apply(old(Buf()), Write(data), padsEmpty) else old(Buf())
      ensures isWrite ==> pos == old(pos) + |data|
      ensures isWrite && data != [] ==> content == WriteAt(old(content), old(pos), data)
      ensures isWrite && data == [] && (!padsEmpty || old(pos) <= |old(content)|) ==> content == old(content)
      ensures isWrite && data == [] && padsEmpty && old(pos) > |old(content)| ==>
                |content| == old(pos) && old(content) <= content
                && forall i :: |old(content)| <= i < |content| ==> content[i] == 0
    {
      if isWrite {
        if data == [] {
          if padsEmpty {
            content := PadTo(content, pos);
          }
        } else {
          content := WriteAt(content, pos, data);
          pos := pos + |data|;
        }
      }
    }

    /** The pieces of one buffer, written one by one, are the buffer written at once. */
    method WriteBuf(pieces: seq<seq<byte>>)
      requires forall p :: p in pieces ==> p != []
      modifies this`content, this`pos
      ensures Buf() == if isWrite then WriteAll(old(Buf()), pieces, padsEmpty) else old(Buf())
    {
      hide Apply;
      if isWrite {
        for k := 0 to |pieces|
          invariant Buf() == WriteAll(old(Buf()), pieces[..k], padsEmpty)
        {
          assert pieces[..k + 1][..k] == pieces[..k];
          WriteBytes(pieces[k]);
        }
        assert pieces[..|pieces|] == pieces;
      }
    }

    method ReadBytes(count: nat) returns (data: seq<byte>)
      modifies this`pos
      ensures data == ReadData(old(Buf()), count)
      ensures |data| == if old(pos) >= |content| then 0
                        else if count <= |content| - old(pos) then count
                        else |content| - old(pos)
      ensures forall i :: 0 <= i < |data| ==> data[i] == content[old(pos) + i]
      ensures pos == old(pos) + |data|
      ensures Buf() == Apply(old(Buf()), Read(count), padsEmpty)
    {
      data := ReadData(Buf(), count);
      pos := pos + |data|;
    }

    /** The new position, or None (and no move) when it would not be a 64-bit offset. */
    method SeekPos(to: SeekFrom) returns (r: Option<nat>)
      modifies this`pos
      ensures r == SeekTarget(old(Buf()), to)
      ensures Buf() == Apply(old(Buf()), Seek(to), padsEmpty)
      ensures var target: int := match to
                                 case Start(n) => n
                                 case End(delta) => |content| + delta
                                 case Current(delta) => old(pos) + delta;
              if 0 <= target <= 0xFFFF_FFFF_FFFF_FFFF then r == Some(target) && pos == target
              else r == None && pos == old(pos)
    {
      r := SeekTarget(Buf(), to);
      if r.Some? {
        pos := r.value;
      }
    }

    /** The first flush of a write handle takes the buffer and the drive and sends the whole upload,
        the chunks only after an acceptance; every later flush sends nothing. */
    method Flush(id: Id, reply: Option<Msg>) returns (sent: seq<Msg>, result: FlushResult)
      modifies this`content, this`drive
      ensures isWrite ==>
                Flushing(Handle(Buf(), drive), sent, result) == FlushStep(path, old(Handle(Buf(), drive)), id, reply)
      ensures pos == old(pos) && drive == if isWrite then None else old(drive)
      ensures !isWrite || old(drive).None? ==>
                sent == [] && result == Flushed && content == old(content)
      ensures isWrite && old(drive).Some? ==>
                result == match reply
                          case Some(FileTransferResponse(_, Accepted(_))) => Flushed
                          case Some(FileTransferResponse(_, Rejected(_))) => Forbidden
                          case _ => GeneralFailure
      ensures isWrite && old(drive).Some? ==>
                var u := Upload(id, old(drive).value, path, old(content));
                && content == []
                && sent == [RequestOf(u)] + (if IsAcceptance(reply) then TailOf(u) else [])
                && (result == Flushed <==> IsAcceptance(reply))
                && (result == Forbidden <==> IsRejection(reply))
    {
      sent, result := [], Flushed;
      if isWrite && drive.Some? {
        var data := content;
        content := [];
        var u := Upload(id, drive.value, path, data);
        drive := None;
        var Location(parent, name) := SplitLast(path);
        sent := [FileUploadRequest(u.resource, parent, name, |data|, id)];
        if IsAcceptance(reply) {
          var chunks := SendChunks(id, data);
          sent := sent + chunks;
          sent := sent + [FileTransferComplete(id)];
        } else if IsRejection(reply) {
          result := Forbidden;
        } else {
          result := GeneralFailure;
        }
      }
    }
  }

  function WriteAll(b: Buffer, pieces: seq<seq<byte>>, padsEmpty: bool): Buffer {
    if pieces == [] then b
    else Apply(WriteAll(b, pieces[..|pieces| - 1], padsEmpty), Write(pieces[|pieces| - 1]), padsEmpty)
  }

  function Concat(pieces: seq<seq<byte>>): seq<byte> {
    if pieces == [] then [] else Concat(pieces[..|pieces| - 1]) + pieces[|pieces| - 1]
  }

  /** How a buffer is cut into pieces makes no difference to what writing it stores. */
  lemma {:induction false} PiecesDoNotMatter(b: Buffer, pieces: seq<seq<byte>>, padsEmpty: bool)
    requires pieces != [] && forall p :: p in pieces ==> p != []
    ensures Concat(pieces) != []
    ensures WriteAll(b, pieces, padsEmpty) == Apply(b, Write(Concat(pieces)), padsEmpty)
  {
    hide Apply;
    var init, last := pieces[..|pieces| - 1], pieces[|pieces| - 1];
    assert last in pieces;
    if init == [] {
      assert [] + last == last;
    } else {
      assert forall p :: p in init ==> p in pieces;
      PiecesDoNotMatter(b, init, padsEmpty);
      WriteTwice(b, Concat(init), last, padsEmpty);
    }
  }

  lemma {:induction false} WriteTwice(b: Buffer, x: seq<byte>, y: seq<byte>, padsEmpty: bool)
    requires x != [] && y != []
    ensures Apply(Apply(b, Write(x), padsEmpty), Write(y), padsEmpty) == Apply(b, Write(x + y), padsEmpty)
  {
    hide WriteAt;
    var once, twice := WriteAt(b.content, b.pos, x + y), WriteAt(WriteAt(b.content, b.pos, x), b.pos + |x|, y);
    assert |once| == |twice|;
    assert forall i :: 0 <= i < |once| ==> once[i] == twice[i];
  }
}
