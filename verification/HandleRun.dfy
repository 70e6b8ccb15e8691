/** What a client may conclude from the results of its flushes: runs of seeks, reads, writes and flushes of one
    write handle (web-davserver/src/fs.rs 612-718). */
module HandleRun {
  import opened Chunks
  import opened TransferMessages
  import opened WriteHandle
  import opened Options

  datatype HandleOp = Edit(op: BufferOp) | Flush(id: Id, reply: Option<Msg>)

  /** The handle, everything sent so far, and the result of the last operation if it was a flush. */
  datatype World = World(h: Handle, sent: seq<Msg>, result: Option<FlushResult>)

  function RunHandle(resource: string, path: string, ops: seq<HandleOp>, padsEmpty: bool): World {
    if ops == [] then World(Handle(EMPTY, Some(resource)), [], None)
    else
      var w := RunHandle(resource, path, ops[..|ops| - 1], padsEmpty);
      match ops[|ops| - 1]
      case Edit(op) => World(w.h.(buf := Apply(w.h.buf, op, padsEmpty)), w.sent, None)
      case Flush(id, reply) =>
        var f := FlushStep(path, w.h, id, reply);
        World(f.handle, w.sent + f.sent, Some(f.result))
  }

  function Edits(ops: seq<HandleOp>): seq<BufferOp> {
    if ops == [] then []
    else Edits(ops[..|ops| - 1]) + if ops[|ops| - 1].Edit? then [ops[|ops| - 1].op] else []
  }

  /** The content the client has written, as if no flush had ever taken it away. */
  function View(ops: seq<HandleOp>, padsEmpty: bool): seq<byte> {
    Run(Edits(ops), padsEmpty).content
  }

  predicate NoFlush(ops: seq<HandleOp>) {
    forall k :: 0 <= k < |ops| ==> ops[k].Edit?
  }

  // ----- what the messages carry -------------------------------------------------------------------------------

  function DataIn(ms: seq<Msg>): seq<byte> {
    if ms == [] then [] else (if ms[0].FileChunk? then ms[0].data else []) + DataIn(ms[1..])
  }

  predicate Completes(ms: seq<Msg>) {
    exists k :: 0 <= k < |ms| && ms[k].FileTransferComplete?
  }

  /** The file a sequence of messages delivers: the data of its chunks, if it gets to a completion. */
  function Delivered(ms: seq<Msg>): Option<seq<byte>> {
    if Completes(ms) then Some(DataIn(ms)) else None
  }

  lemma {:induction false} DataConcat(a: seq<Msg>, b: seq<Msg>)
    ensures DataIn(a + b) == DataIn(a) + DataIn(b)
  {
    if a == [] {
      assert a + b == b;
    } else {
      assert (a + b)[1..] == a[1..] + b;
      DataConcat(a[1..], b);
    }
  }

  lemma {:induction false} DataOfChunks(id: Id, cs: seq<Chunk>)
    ensures DataIn(ChunkMsgs(id, cs)) == Flatten(cs)
  {
    hide ChunkMsgs;
    if cs != [] {
      var c, rest := cs[0], cs[1..];
      assert cs == [c] + rest;
      DataOfChunks(id, rest);
      ChunkMsgsStep(id, c, rest);
      assert ChunkMsgs(id, cs)[1..] == ChunkMsgs(id, rest);
    }
  }

  /** A request alone delivers nothing; a whole upload delivers its data. */
  lemma {:induction false} UploadData(u: Upload)
    ensures Delivered([RequestOf(u)]) == None && Delivered([RequestOf(u)] + TailOf(u)) == Some(u.data)
  {
    hide ChunkMsgs, ChunksFrom, DataIn;
    var cs, done := ChunksFrom(u.data, 0), FileTransferComplete(u.id);
    DataConcat([RequestOf(u)], TailOf(u));
    DataConcat(ChunkMsgs(u.id, cs), [done]);
    NoData(RequestOf(u));
    NoData(done);
    DataOfChunks(u.id, cs);
    ChunksTile(u.data, 0);
    TilesFlatten(u.data, 0, |u.data|, cs, CHUNK_SIZE);
    assert ([RequestOf(u)] + TailOf(u))[1 + |cs|] == done;
    assert [] + (u.data + []) == u.data && u.data[0..|u.data|] == u.data;
  }

  lemma {:induction false} NoData(m: Msg)
    requires !m.FileChunk?
    ensures DataIn([m]) == []
  {
    assert [m][1..] == [];
  }

  // ----- before and after the first flush ------------------------------------------------------------------------

  lemma {:induction false} RunSnoc(resource: string, path: string, ops: seq<HandleOp>, op: HandleOp, padsEmpty: bool)
    ensures var w, t := RunHandle(resource, path, ops, padsEmpty), RunHandle(resource, path, ops + [op], padsEmpty);
            match op
            case Edit(e) => t == World(w.h.(buf := Apply(w.h.buf, e, padsEmpty)), w.sent, None)
            case Flush(id, reply) =>
              var f := FlushStep(path, w.h, id, reply);
              t == World(f.handle, w.sent + f.sent, Some(f.result))
  {
    hide Apply, FlushStep;
    assert (ops + [op])[..|ops|] == ops;
  }

  lemma {:induction false} BeforeFlush(resource: string, path: string, ops: seq<HandleOp>, padsEmpty: bool)
    requires NoFlush(ops)
    ensures RunHandle(resource, path, ops, padsEmpty)
         == World(Handle(Run(Edits(ops), padsEmpty), Some(resource)), [], None)
  {
    hide Apply;
    if ops != [] {
      var init, e := ops[..|ops| - 1], ops[|ops| - 1].op;
      BeforeFlush(resource, path, init, padsEmpty);
      assert (Edits(init) + [e])[..|Edits(init)|] == Edits(init);
    }
  }

  /** Once a handle has been flushed, nothing is sent any more and every flush reports success. */
  lemma {:induction false} AfterFlush(resource: string, path: string, first: seq<HandleOp>, after: seq<HandleOp>,
                                      padsEmpty: bool)
    requires RunHandle(resource, path, first, padsEmpty).h.drive == None
    ensures var w := RunHandle(resource, path, first, padsEmpty);
            var t := RunHandle(resource, path, first + after, padsEmpty);
            && t.h.drive == None && t.sent == w.sent
            && (after != [] && after[|after| - 1].Flush? ==> t.result == Some(Flushed))
  {
    hide RunHandle, Apply;
    if after == [] {
      assert first + after == first;
    } else {
      var init, last := after[..|after| - 1], after[|after| - 1];
      AfterFlush(resource, path, first, init, padsEmpty);
      RunSnoc(resource, path, first + init, last, padsEmpty);
      assert first + after == first + init + [last];
    }
  }

  /** The first flush tells the truth: it reports success if and only if it was accepted, and then all that was
      written has been sent. Every later flush reports success and sends nothing; what has been delivered by
      then is all that was written if and only if the first flush was accepted and the writes after it did not
      change the content. */
  lemma {:induction false} FlushTells(resource: string, path: string, before: seq<HandleOp>, id: Id, reply: Option<Msg>,
                                      after: seq<HandleOp>, later: Id, laterReply: Option<Msg>, padsEmpty: bool)
    requires NoFlush(before)
    ensures var first := before + [Flush(id, reply)];
            var all := first + after;
            var w, t := RunHandle(resource, path, first, padsEmpty),
                        RunHandle(resource, path, all + [Flush(later, laterReply)], padsEmpty);
            && (w.result == Some(Flushed) <==> IsAcceptance(reply))
            && Delivered(w.sent) == (if IsAcceptance(reply) then Some(View(before, padsEmpty)) else None)
            && t.result == Some(Flushed) && t.sent == w.sent
            && (Delivered(t.sent) == Some(View(all, padsEmpty)) <==>
                IsAcceptance(reply) && View(all, padsEmpty) == View(before, padsEmpty))
  {
    hide RunHandle, Delivered, TailOf, RequestOf, View;
    var first := before + [Flush(id, reply)];
    var last := [Flush(later, laterReply)];
    BeforeFlush(resource, path, before, padsEmpty);
    RunSnoc(resource, path, before, Flush(id, reply), padsEmpty);
    AfterFlush(resource, path, first, after + last, padsEmpty);
    assert first + (after + last) == first + after + last;
    assert (after + last)[|after + last| - 1] == last[0];
    var u := Upload(id, resource, path, Run(Edits(before), padsEmpty).content);
    UploadData(u);
    ViewIs(before, padsEmpty);
    assert [] + ([RequestOf(u)] + TailOf(u)) == [RequestOf(u)] + TailOf(u);
    assert [] + ([RequestOf(u)] + []) == [RequestOf(u)];
  }

  lemma {:induction false} ViewIs(ops: seq<HandleOp>, padsEmpty: bool)
    ensures View(ops, padsEmpty) == Run(Edits(ops), padsEmpty).content
  {
  }

  /** The operation stores no byte. */
  predicate Quiet(op: HandleOp, padsEmpty: bool) {
    op.Edit? && op.op.Write? ==> op.op.data == [] && !padsEmpty
  }

  /** Where nothing is written after the first flush, the content does not change. */
  lemma {:induction false} QuietKeeps(first: seq<HandleOp>, after: seq<HandleOp>, padsEmpty: bool)
    requires forall k :: 0 <= k < |after| ==> Quiet(after[k], padsEmpty)
    ensures View(first + after, padsEmpty) == View(first, padsEmpty)
  {
    hide Run, Edits;
    if after == [] {
      assert first + after == first;
    } else {
      var init, last := after[..|after| - 1], after[|after| - 1];
      QuietKeeps(first, init, padsEmpty);
      assert first + after == first + init + [last];
      QuietStep(first + init, last, padsEmpty);
    }
  }

  lemma {:induction false} QuietStep(ops: seq<HandleOp>, op: HandleOp, padsEmpty: bool)
    requires Quiet(op, padsEmpty)
    ensures View(ops + [op], padsEmpty) == View(ops, padsEmpty)
  {
    hide Run, WriteAt;
    var edits := Edits(ops);
    assert (ops + [op])[..|ops|] == ops;
    if op.Edit? {
      RunLast(edits, op.op, padsEmpty);
    } else {
      assert edits + [] == edits;
    }
  }
}
