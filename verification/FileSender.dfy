/** Sending a local file to a peer: a reader that gets whatever the operating system returns, a
    forwarder that adds up the offset, and the temporary file the peer collects
    (node-functions/src/fs_local.rs 163-195, p2p-handlers/src/fs_local.rs 472-640). */
module FileSender {
  import opened Chunks
  import opened TransferMessages
  import opened VirtualPath
  import opened Options
  import P = Peer
  import opened WriteHandle

  const BUFFER_SIZE: nat := 16 * 1024

  /** What one read returned: a byte count, 0 only at the end of the file, or an error. */
  datatype Outcome = Count(n: nat) | Error

  /** An item the reader hands over; an empty block marks the end of the file. */
  datatype Item = Block(data: seq<byte>) | Failure

  /** A possible history of reads from pos to the end or to an error. */
  predicate LegalReads(src: seq<byte>, pos: nat, history: seq<Outcome>)
    decreases |history|
  {
    && history != [] && pos <= |src|
    && match history[0]
       case Error => |history| == 1
       case Count(n) =>
         if n == 0 then pos == |src| && |history| == 1
         else n <= BUFFER_SIZE && pos + n <= |src| && LegalReads(src, pos + n, history[1..])
  }

  predicate Succeeds(history: seq<Outcome>) {
    history != [] && history[|history| - 1] == Count(0)
  }

  function Blocks(cs: seq<Chunk>): (items: seq<Item>)
    ensures |items| == |cs|
  {
    seq(|cs|, k requires 0 <= k < |cs| => Block(cs[k].data))
  }

  function LastItem(history: seq<Outcome>): Item {
    if Succeeds(history) then Block([]) else Failure
  }

  /** The pieces a history of reads cuts the file into. */
  function Pieces(src: seq<byte>, pos: nat, history: seq<Outcome>): seq<Chunk>
    requires LegalReads(src, pos, history)
    decreases |history|
  {
    if history[0] == Error || history[0].n == 0 then []
    else [Chunk(pos, src[pos..pos + history[0].n])] + Pieces(src, pos + history[0].n, history[1..])
  }

  /** How many bytes a history reads. */
  function BytesRead(history: seq<Outcome>): nat {
    if history == [] || history[0] == Error then 0 else history[0].n + BytesRead(history[1..])
  }

  /** Whatever the read sizes, the pieces tile the file up to where reading stopped, which is the
      end of the file when no read failed. */
  lemma {:induction false} PiecesTile(src: seq<byte>, pos: nat, history: seq<Outcome>)
    requires LegalReads(src, pos, history)
    ensures Tiles(src, pos, pos + BytesRead(history), Pieces(src, pos, history), 16384)
    ensures pos + BytesRead(history) <= |src|
    ensures Succeeds(history) ==> pos + BytesRead(history) == |src|
    decreases |history|
  {
    if history[0] != Error && history[0].n != 0 {
      var n, rest := history[0].n, history[1..];
      PiecesTile(src, pos + n, rest);
      assert Pieces(src, pos, history)[1..] == Pieces(src, pos + n, rest);
    }
  }

  /** The reader: one reused buffer, one item per read. */
  method ReadFile(src: seq<byte>, history: seq<Outcome>) returns (items: seq<Item>)
    requires LegalReads(src, 0, history)
    ensures items == Blocks(Pieces(src, 0, history)) + [LastItem(history)]
  {
    hide Blocks;
    var buffer := new byte[BUFFER_SIZE];
    var pos: nat, rest := 0, history;
    items := [];
    while rest[0] != Error && rest[0].n != 0
      invariant LegalReads(src, pos, rest)
      invariant Succeeds(rest) <==> Succeeds(history)
      invariant items + Blocks(Pieces(src, pos, rest)) == Blocks(Pieces(src, 0, history))
      decreases |rest|
    {
      var n := rest[0].n;
      forall i | 0 <= i < n {
        buffer[i] := src[pos + i];
      }
      assert buffer[..n] == src[pos..pos + n];
      ghost var after := Pieces(src, pos + n, rest[1..]);
      BlocksStep(Chunk(pos, src[pos..pos + n]), after);
      assert items + ([Block(buffer[..n])] + Blocks(after)) == items + [Block(buffer[..n])] + Blocks(after);
      items := items + [Block(buffer[..n])];
      pos, rest := pos + n, rest[1..];
    }
    assert items == Blocks(Pieces(src, 0, history));
    items := items + [if rest[0] == Error then Failure else Block([])];
  }

  lemma {:induction false} BlocksStep(c: Chunk, cs: seq<Chunk>)
    ensures Blocks([c] + cs) == [Block(c.data)] + Blocks(cs)
  {
  }

  /** Chunks with an accumulated offset until the end mark, an error or the end of the channel, and
      the completion in any case. */
  function Forwarded(id: Id, offset: nat, items: seq<Item>): seq<Msg>
    decreases |items|
  {
    if items == [] || items[0] == Failure || items[0].data == [] then [FileTransferComplete(id)]
    else [FileChunk(id, offset, items[0].data)] + Forwarded(id, offset + |items[0].data|, items[1..])
  }

  /** The forwarder's loop. */
  method Forward(id: Id, items: seq<Item>) returns (sent: seq<Msg>)
    ensures sent == Forwarded(id, 0, items)
  {
    var rest, offset: nat := items, 0;
    sent := [];
    while rest != [] && rest[0] != Failure && rest[0].data != []
      invariant sent + Forwarded(id, offset, rest) == Forwarded(id, 0, items)
      decreases |rest|
    {
      var chunk := FileChunk(id, offset, rest[0].data);
      assert sent + Forwarded(id, offset, rest)
          == sent + [chunk] + Forwarded(id, offset + |rest[0].data|, rest[1..]);
      sent := sent + [chunk];
      rest, offset := rest[1..], offset + |rest[0].data|;
    }
    sent := sent + [FileTransferComplete(id)];
  }

  /** The accumulated offsets are the positions of the pieces: the peer is sent a tiling of what was
      read, then the completion, even after a read error. */
  lemma {:induction false} ForwardedTiling(id: Id, src: seq<byte>, from: nat, to: nat, cs: seq<Chunk>, last: Item)
    requires Tiles(src, from, to, cs, BUFFER_SIZE) && (last == Failure || last == Block([]))
    ensures Forwarded(id, from, Blocks(cs) + [last]) == ChunkMsgs(id, cs) + [FileTransferComplete(id)]
    decreases |cs|
  {
    hide Blocks, ChunkMsgs, SliceOf;
    var done := [FileTransferComplete(id)];
    if cs == [] {
      assert Blocks(cs) + [last] == [last] && ChunkMsgs(id, cs) + done == done;
    } else {
      var c, rest := cs[0], cs[1..];
      ForwardedTiling(id, src, from + |c.data|, to, rest, last);
      assert cs == [c] + rest;
      BlocksStep(c, rest);
      ChunkMsgsStep(id, c, rest);
      var tail := Blocks(rest) + [last];
      assert Blocks(cs) + [last] == [Block(c.data)] + tail;
      ForwardOne(id, from, c.data, tail);
      assert [FileChunk(id, from, c.data)] + (ChunkMsgs(id, rest) + done) == ChunkMsgs(id, cs) + done;
    }
  }

  lemma {:induction false} ForwardOne(id: Id, offset: nat, data: seq<byte>, rest: seq<Item>)
    requires data != []
    ensures Forwarded(id, offset, [Block(data)] + rest)
         == [FileChunk(id, offset, data)] + Forwarded(id, offset + |data|, rest)
  {
    assert ([Block(data)] + rest)[1..] == rest;
  }

  /** The file a download request addresses. */
  function SourceOf(cfg: P.Config, resource: string, filePath: string): Option<P.FilePath> {
    match ResolveIn(P.SharesOf(cfg, resource), filePath)
    case Some(At(local, _, _)) => Some(Names(local))
    case _ => None
  }

  /** A request addresses an entry if and only if the resource is configured and the path resolves to one in
      one of its shares. */
  lemma {:induction false} SourceExactly(cfg: P.Config, resource: string, filePath: string)
    ensures SourceOf(cfg, resource, filePath) ==
            if resource in cfg.shares && ResolveIn(cfg.shares[resource], filePath).Some?
               && ResolveIn(cfg.shares[resource], filePath).value.At?
            then Some(Names(ResolveIn(cfg.shares[resource], filePath).value.local))
            else None
  {
    hide Names;
    assert ResolveIn([], filePath) == None;
  }

  /** A download of a path reads the file an upload to that path wrote. */
  lemma {:induction false} DownloadFindsUpload(cfg: P.Config, u: Upload)
    requires AbsoluteShares(P.SharesOf(cfg, u.resource))
    ensures var d := P.DestinationOf(cfg, u.resource, SplitLast(u.path).parent, SplitLast(u.path).name);
            d.File? ==> SourceOf(cfg, u.resource, u.path) == Some(d.path)
  {
    hide Names, ResolveIn, SplitLast;
    var d := P.DestinationOf(cfg, u.resource, SplitLast(u.path).parent, SplitLast(u.path).name);
    if d.File? {
      SplitAgreesWithWhole(P.SharesOf(cfg, u.resource), u.path);
    }
  }

  /** The outcome of opening a path: an error, the file, or a directory, which opens but cannot be read; with
      the size its metadata gives, if any. */
  datatype Opening = CannotOpen(reason: string) | Opened(size: Option<nat>) | OpenedDirectory(size: Option<nat>)

  function SizeOr0(size: Option<nat>): nat {
    match size case Some(n) => n case None => 0
  }

  /** The stream of an opened file. */
  function Stream(id: Id, src: seq<byte>, history: seq<Outcome>): seq<Msg>
    requires LegalReads(src, 0, history)
  {
    ChunkMsgs(id, Pieces(src, 0, history)) + [FileTransferComplete(id)]
  }

  method SendFile(id: Id, src: seq<byte>, history: seq<Outcome>) returns (sent: seq<Msg>)
    requires LegalReads(src, 0, history)
    ensures sent == Stream(id, src, history)
  {
    hide ChunkMsgs, Pieces;
    var items := ReadFile(src, history);
    PiecesTile(src, 0, history);
    ForwardedTiling(id, src, 0, BytesRead(history), Pieces(src, 0, history), LastItem(history));
    sent := Forward(id, items);
  }

  /** A download request: refused, unreadable, or answered with the size and then the whole stream, which
      for a directory is a completion and nothing else. A size that cannot be read is given as 0. */
  method HandleDownloadRequest(cfg: P.Config, resource: string, filePath: string, id: Id,
                               files: P.Files, opening: Opening, history: seq<Outcome>) returns (sent: seq<Msg>)
    requires var f := SourceOf(cfg, resource, filePath);
             f.Some? && f.value in files ==> LegalReads(files[f.value], 0, history)
    requires var f := SourceOf(cfg, resource, filePath);
             opening.Opened? && f.Some? && f.value in files && opening.size.Some? ==>
               opening.size.value == |files[f.value]|
    ensures var f := SourceOf(cfg, resource, filePath);
            if f.Some? && f.value in files && opening.Opened? then
              sent == [FileTransferResponse(id, Accepted(if opening.size.Some? then |files[f.value]| else 0))]
                    + Stream(id, files[f.value], history)
            else if f.Some? && opening.OpenedDirectory? then
              sent == [FileTransferResponse(id, Accepted(if opening.size.Some? then opening.size.value else 0)),
                       FileTransferComplete(id)]
            else |sent| == 1 && sent[0].FileTransferResponse? && sent[0].id == id && sent[0].status.Rejected?
  {
    hide SourceOf, Stream;
    var file := SourceOf(cfg, resource, filePath);
    if file.None? {
      return [FileTransferResponse(id, Rejected("Cannot download (unknown share or virtual root)"))];
    }
    if opening.CannotOpen? {
      return [FileTransferResponse(id, Rejected(opening.reason))];
    }
    var size := SizeOr0(opening.size);
    if opening.OpenedDirectory? {
      DirectoryStream(id);
      var stream := SendFile(id, [], [Error]);
      return [FileTransferResponse(id, Accepted(size))] + stream;
    }
    if file.value !in files {
      return [FileTransferResponse(id, Rejected("not found"))];
    }
    var stream := SendFile(id, files[file.value], history);
    sent := [FileTransferResponse(id, Accepted(size))] + stream;
  }

  /** The first read fails, so nothing is sent but the completion. */
  lemma {:induction false} DirectoryStream(id: Id)
    ensures LegalReads([], 0, [Error]) && Stream(id, [], [Error]) == [FileTransferComplete(id)]
  {
    assert Pieces([], 0, [Error]) == [];
  }

  /** What an accepted offer starts: the stream of the offered file, a completion alone for a directory, or
      nothing when it cannot be opened. */
  method SendOffered(id: Id, path: P.FilePath, files: P.Files, opening: Opening, history: seq<Outcome>)
    returns (sent: seq<Msg>)
    requires path in files ==> LegalReads(files[path], 0, history)
    ensures sent == if path in files && opening.Opened? then Stream(id, files[path], history)
                    else if opening.OpenedDirectory? then [FileTransferComplete(id)]
                    else []
  {
    hide Stream;
    sent := [];
    if opening.OpenedDirectory? {
      DirectoryStream(id);
      sent := SendFile(id, [], [Error]);
    } else if opening.Opened? && path in files {
      sent := SendFile(id, files[path], history);
    }
  }

  /** The receiver of a stream, with its chunks in any order, repeated, and interleaved with foreign
      events: the temporary file is what was read of the source, and it exists exactly when something was.
      So it is the whole source if and only if the source is not empty and reading got to its end, which a
      read error prevents only when it comes before the last byte. */
  lemma {:induction false} DownloadArrives(cfg: P.Config, s: P.State, id: Id, src: seq<byte>, size: nat,
                                           history: seq<Outcome>, es: seq<P.Event>)
    requires LegalReads(src, 0, history)
    requires id !in s.uploads && cfg.tempDir + [id] !in s.files && P.Alone(s, id, cfg.tempDir + [id])
    requires forall e :: e in es ==> P.OwnChunk(id, e) || P.Foreign(cfg, id, cfg.tempDir + [id], e)
    requires forall c :: c in P.ChunksIn(id, es) <==> c in Pieces(src, 0, history)
    ensures var active := P.Step(cfg, s, P.Deliver(FileTransferResponse(id, Accepted(size)), P.Done));
            var t, temp, end := P.RunEvents(cfg, active, es), cfg.tempDir + [id], BytesRead(history);
            && end <= |src| && (Succeeds(history) ==> end == |src|)
            && (temp in t.files <==> end > 0)
            && P.ContentOf(t.files, temp) == src[..end]
            && (temp in t.files && t.files[temp] == src <==> src != [] && end == |src|)
  {
    hide Pieces, P.Foreign, BytesRead;
    var temp, end := cfg.tempDir + [id], BytesRead(history);
    var active := P.Step(cfg, s, P.Deliver(FileTransferResponse(id, Accepted(size)), P.Done));
    P.Collects(cfg, active, id, temp, es);
    var pieces := Pieces(src, 0, history);
    PiecesTile(src, 0, history);
    TilesPrefix(src, 0, end, pieces, BUFFER_SIZE);
    TilesFlatten(src, 0, end, pieces, BUFFER_SIZE);
    AnyOrder(src[..end], pieces, BUFFER_SIZE, P.ChunksIn(id, es));
    SameEmptiness(pieces, P.ChunksIn(id, es));
    assert |src[..end]| == end;
  }

  /** An error after the last byte: every source has such a history, and the whole of it was read. */
  lemma {:induction false} LateErrorIsHarmless(src: seq<byte>, pos: nat) returns (history: seq<Outcome>)
    requires pos <= |src|
    ensures LegalReads(src, pos, history) && !Succeeds(history) && pos + BytesRead(history) == |src|
    decreases |src| - pos
  {
    if pos == |src| {
      history := [Error];
    } else {
      var n := if pos + BUFFER_SIZE < |src| then BUFFER_SIZE else |src| - pos;
      var rest := LateErrorIsHarmless(src, pos + n);
      history := [Count(n)] + rest;
      assert history[1..] == rest && history[|history| - 1] == rest[|rest| - 1];
    }
  }

  lemma {:induction false} SameEmptiness(a: seq<Chunk>, b: seq<Chunk>)
    requires forall c :: c in b <==> c in a
    ensures a == [] <==> b == []
  {
    assert a != [] ==> a[0] in b;
    assert b != [] ==> b[0] in a;
  }
}
