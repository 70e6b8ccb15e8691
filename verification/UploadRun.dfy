/** Whole uploads: a flushed write handle, a first-in first-out channel and the peer, with the
    peer's other transfers and the rest of its machine interleaved in any way
    (web-davserver/src/fs.rs 639-718 with p2p-handlers/src/fs_local.rs 411-471 and 649-710). */
module UploadRun {
  import opened Chunks
  import opened TransferMessages
  import opened VirtualPath
  import opened Options
  import opened WriteHandle
  import P = Peer

  /** What the flush will have sent once it is accepted. */
  function Script(u: Upload): seq<Msg> {
    [RequestOf(u)] + TailOf(u)
  }

  function Destination(cfg: P.Config, u: Upload): P.Destination {
    P.DestinationOf(cfg, u.resource, SplitLast(u.path).parent, SplitLast(u.path).name)
  }

  /** sent and delivered count messages of the script; the rest of them is still on its way. created: the
      target file was created for this upload. intact: every file operation of this upload succeeded so far. */
  datatype Sys = Sys(sent: nat, delivered: nat, replies: seq<Msg>, accepted: bool,
                     result: Option<FlushResult>, peer: P.State, created: bool, intact: bool)

  datatype Action = Send | Arrive(io: P.Io) | TakeReply | Other(e: P.Event)

  ghost predicate Init(cfg: P.Config, u: Upload, s: Sys) {
    && s.sent == 0 && s.delivered == 0 && s.replies == [] && !s.accepted && s.result == None
    && !s.created && s.intact && u.id !in s.peer.downloads
    && (Destination(cfg, u).File? ==> P.Alone(s.peer, u.id, Destination(cfg, u).path))
  }

  /** The flush may send: its request first, the rest once the acceptance was taken. */
  predicate MaySend(u: Upload, s: Sys) {
    s.sent == 0 || (s.accepted && s.sent < |Script(u)|)
  }

  /** The next message reaches the peer, whose file operation for it turns out as io says. */
  function Arrived(cfg: P.Config, u: Upload, s: Sys, io: P.Io): Sys
    requires s.delivered < |Script(u)|
  {
    var msg := Script(u)[s.delivered];
    s.(delivered := s.delivered + 1,
       peer := P.Step(cfg, s.peer, P.Deliver(msg, io)),
       replies := if msg.FileUploadRequest?
                  then s.replies + [FileTransferResponse(u.id, P.UploadReply(cfg, msg, io))]
                  else s.replies,
       created := if msg.FileUploadRequest? then io.Done? else s.created,
       intact := s.intact && (io.Done? || msg.FileTransferComplete?))
  }

  /** One step. */
  ghost predicate Next(cfg: P.Config, u: Upload, s: Sys, a: Action, t: Sys) {
    match a
    case Send =>
      && MaySend(u, s)
      && t == s.(sent := s.sent + 1,
                 result := if s.sent + 1 == |Script(u)| then Some(Flushed) else s.result)
    case Arrive(io) => s.delivered < s.sent <= |Script(u)| && t == Arrived(cfg, u, s, io)
    case TakeReply =>
      && s.sent == 1 && !s.accepted && s.result == None && s.replies != []
      && (if IsAcceptance(Some(s.replies[0])) then t == s.(replies := s.replies[1..], accepted := true)
          else t == s.(replies := s.replies[1..],
                       result := Some(if IsRejection(Some(s.replies[0])) then Forbidden else GeneralFailure)))
    case Other(e) =>
      && (Destination(cfg, u).File? ==> P.Foreign(cfg, u.id, Destination(cfg, u).path, e))
      && t == s.(peer := P.Step(cfg, s.peer, e))
  }

  ghost predicate IsRun(cfg: P.Config, u: Upload, states: seq<Sys>, actions: seq<Action>) {
    && |states| == |actions| + 1
    && Init(cfg, u, states[0])
    && forall k :: 0 <= k < |actions| ==> Next(cfg, u, states[k], actions[k], states[k + 1])
  }

  /** The number of chunks among the first n messages of the script. */
  function ChunksBefore(u: Upload, n: nat): nat {
    var total := |ChunksFrom(u.data, 0)|;
    if n == 0 then 0 else if n - 1 < total then n - 1 else total
  }

  /** After n delivered messages: the entry in the transfer table, whatever became of the file. */
  ghost predicate Entered(u: Upload, path: P.FilePath, n: nat, peer: P.State) {
    && (0 < n < |Script(u)| <==> u.id in peer.downloads)
    && (u.id in peer.downloads ==> peer.downloads[u.id].path == path)
  }

  /** And the part of the file that is written, when every file operation succeeded. */
  ghost predicate Written(u: Upload, path: P.FilePath, n: nat, peer: P.State) {
    n > 0 ==>
      && path in peer.files
      && peer.files[path] == Deliver([], ChunksFrom(u.data, 0)[..ChunksBefore(u, n)])
  }

  /** The answer to the request waits to be taken. */
  predicate Answered(u: Upload, s: Sys, accepts: bool) {
    && |s.replies| == 1 && s.replies[0].FileTransferResponse? && s.replies[0].id == u.id
    && (s.replies[0].status.Accepted? <==> accepts)
  }

  ghost predicate Inv(cfg: P.Config, u: Upload, s: Sys) {
    var d := Destination(cfg, u);
    && s.delivered <= s.sent <= |Script(u)|
    && (s.sent > 1 ==> s.accepted)
    && (s.accepted ==> d.File? && s.created && s.delivered > 0)
    && (s.intact && s.delivered > 0 ==> s.created)
    && (s.result == Some(Flushed) <==> s.sent == |Script(u)|)
    && (s.result.Some? && s.result != Some(Flushed) ==>
          s.result == Some(Forbidden) && (d.Refused? || !s.created) && s.delivered > 0 && !s.accepted)
    && (s.delivered == 0 ==> s.replies == [])
    && (s.delivered > 0 && !s.accepted && s.result == None ==>
          Answered(u, s, d.File? && s.created))
    && (d.File? ==>
          && P.Alone(s.peer, u.id, d.path) && Entered(u, d.path, s.delivered, s.peer)
          && (s.intact ==> Written(u, d.path, s.delivered, s.peer)))
  }

  lemma {:induction false} ScriptShape(u: Upload)
    ensures var cs := ChunksFrom(u.data, 0);
            && |Script(u)| == |cs| + 2
            && Script(u)[0] == RequestOf(u)
            && (forall k :: 0 < k <= |cs| ==> Script(u)[k] == FileChunk(u.id, cs[k - 1].offset, cs[k - 1].data))
            && Script(u)[|cs| + 1] == FileTransferComplete(u.id)
  {
    assert TailOf(u)[|ChunksFrom(u.data, 0)|] == FileTransferComplete(u.id);
    assert forall k :: 0 < k <= |ChunksFrom(u.data, 0)| + 1 ==> Script(u)[k] == TailOf(u)[k - 1];
  }

  lemma {:induction false} DeliverStep(f: seq<byte>, cs: seq<Chunk>, n: nat)
    requires n < |cs|
    ensures Deliver(f, cs[..n + 1]) == WriteAt(Deliver(f, cs[..n]), cs[n].offset, cs[n].data)
  {
    assert cs[..n + 1][..n] == cs[..n];
  }

  lemma {:induction false} RequestArrives(cfg: P.Config, u: Upload, path: P.FilePath, peer: P.State, io: P.Io)
    requires Destination(cfg, u) == P.File(path)
    ensures P.Step(cfg, peer, P.Deliver(RequestOf(u), io)) ==
            peer.(downloads := peer.downloads[u.id := P.Target(path, |u.data|)],
                  files := P.Store(peer.files, path, [], io))
    ensures Deliver([], []) == []
  {
  }

  /** The arrival of the next message of the script: the table in any case, the file when its operation
      succeeds. */
  lemma {:induction false} ArrivalWrites(cfg: P.Config, u: Upload, path: P.FilePath, n: nat, peer: P.State, io: P.Io)
    requires n < |Script(u)|
    ensures Destination(cfg, u) == P.File(path) && P.Alone(peer, u.id, path) && Entered(u, path, n, peer) ==>
              var t := P.Step(cfg, peer, P.Deliver(Script(u)[n], io));
              && P.Alone(t, u.id, path) && Entered(u, path, n + 1, t)
              && (Written(u, path, n, peer) && (io.Done? || n + 1 == |Script(u)|) ==> Written(u, path, n + 1, t))
  {
    hide P.DestinationOf, SplitLast, ChunksFrom, WriteAt, Script, TailOf, RequestOf, Deliver, Destination;
    ScriptShape(u);
    var cs := ChunksFrom(u.data, 0);
    if n == 0 {
      if Destination(cfg, u) == P.File(path) {
        RequestArrives(cfg, u, path, peer, io);
      }
      assert cs[..0] == [];
    } else if n <= |cs| {
      DeliverStep([], cs, n - 1);
    }
  }

  /** The request is accepted exactly when it addresses a file that can be created. */
  lemma {:induction false} AcceptsWhenCreated(cfg: P.Config, u: Upload, io: P.Io)
    ensures P.UploadReply(cfg, RequestOf(u), io).Accepted? <==> Destination(cfg, u).File? && io.Done?
  {
  }

  lemma {:induction false} ArriveStep(cfg: P.Config, u: Upload, s: Sys, io: P.Io)
    requires Inv(cfg, u, s) && s.delivered < s.sent
    ensures Inv(cfg, u, Arrived(cfg, u, s, io))
  {
    hide P.DestinationOf, P.Foreign, P.Alone, SplitLast, ChunksFrom, Entered, Written, P.Step, Script, TailOf,
      P.UploadReply, Destination;
    var d := Destination(cfg, u);
    ScriptShape(u);
    AcceptsWhenCreated(cfg, u, io);
    if d.File? {
      ArrivalWrites(cfg, u, d.path, s.delivered, s.peer, io);
    }
  }

  lemma {:induction false} InvStep(cfg: P.Config, u: Upload, s: Sys, a: Action, t: Sys)
    requires Inv(cfg, u, s) && Next(cfg, u, s, a, t)
    ensures Inv(cfg, u, t)
  {
    hide P.DestinationOf, P.Foreign, P.Alone, SplitLast, ChunksFrom, Entered, Written, P.Step, Script, TailOf,
      P.UploadReply, Arrived, Destination;
    var d := Destination(cfg, u);
    ScriptShape(u);
    match a
    case Send =>
    case TakeReply =>
    case Arrive(io) => ArriveStep(cfg, u, s, io);
    case Other(e) =>
      if d.File? {
        P.ForeignFrame(cfg, s.peer, u.id, d.path, e);
        WrittenFrame(u, d.path, s.delivered, s.peer, t.peer);
      }
  }

  lemma {:induction false} WrittenFrame(u: Upload, path: P.FilePath, n: nat, p: P.State, q: P.State)
    requires path in q.files <==> path in p.files
    requires path in p.files ==> q.files[path] == p.files[path]
    requires u.id in q.downloads <==> u.id in p.downloads
    requires u.id in p.downloads ==> q.downloads[u.id] == p.downloads[u.id]
    ensures Entered(u, path, n, p) ==> Entered(u, path, n, q)
    ensures Written(u, path, n, p) ==> Written(u, path, n, q)
  {
  }

  lemma {:induction false} InvHolds(cfg: P.Config, u: Upload, states: seq<Sys>, actions: seq<Action>, k: nat)
    requires IsRun(cfg, u, states, actions) && k < |states|
    ensures Inv(cfg, u, states[k])
  {
    hide P.DestinationOf, P.Alone, ChunksFrom, P.Step;
    if k > 0 {
      InvHolds(cfg, u, states, actions, k - 1);
      InvStep(cfg, u, states[k - 1], actions[k - 1], states[k]);
    } else {
      ScriptShape(u);
    }
  }

  /** In every run, whatever becomes of the file operations: the flush succeeds only when the peer could
      create the addressed file, and once all of it has arrived the transfer is no longer active. If no file
      operation failed, the file then holds exactly the buffer, and at any earlier moment a prefix of it. An
      upload that is refused or whose file cannot be created sends its request and nothing else; in the
      second case its entry stays in the table. */
  lemma {:induction false} UploadDelivers(cfg: P.Config, u: Upload, states: seq<Sys>, actions: seq<Action>, k: nat)
    requires IsRun(cfg, u, states, actions) && k < |states|
    ensures var s, d := states[k], Destination(cfg, u);
            && (s.result == Some(Flushed) ==> d.File? && s.created)
            && (s.result == Some(Flushed) && s.delivered == s.sent ==> u.id !in s.peer.downloads)
            && (s.result == Some(Flushed) && s.delivered == s.sent && s.intact ==>
                  d.path in s.peer.files && s.peer.files[d.path] == u.data)
            && (s.result.Some? && s.result != Some(Flushed) ==>
                  s.result == Some(Forbidden) && (d.Refused? || !s.created))
            && (d.File? && s.delivered > 0 && s.intact ==>
                  d.path in s.peer.files && s.peer.files[d.path] <= u.data)
            && (d.Refused? || (s.delivered > 0 && !s.created) ==> s.sent <= 1 && s.result != Some(Flushed))
            && (d.File? && s.delivered > 0 && !s.created ==> u.id in s.peer.downloads)
  {
    hide P.DestinationOf, SplitLast, P.Alone, Written, Script, ChunksFrom, IsRun, Destination;
    InvHolds(cfg, u, states, actions, k);
    ScriptShape(u);
    var s, d := states[k], Destination(cfg, u);
    if d.File? && s.delivered > 0 && s.intact {
      WrittenPrefix(u, d.path, s.delivered, s.peer);
    }
  }

  lemma {:induction false} WrittenPrefix(u: Upload, path: P.FilePath, n: nat, peer: P.State)
    requires Written(u, path, n, peer) && 0 < n <= |Script(u)|
    ensures path in peer.files && peer.files[path] <= u.data
    ensures n == |Script(u)| ==> peer.files[path] == u.data
  {
    hide Deliver;
    ScriptShape(u);
    var cs := ChunksFrom(u.data, 0);
    var k := ChunksBefore(u, n);
    ChunksTile(u.data, 0);
    TilesCut(u.data, 0, |u.data|, cs, CHUNK_SIZE, k);
    InOrder(u.data, TiledEnd(0, cs[..k]), cs[..k], CHUNK_SIZE);
    if n == |Script(u)| {
      assert cs[..k] == cs;
      TilesFlatten(u.data, 0, |u.data|, cs, CHUNK_SIZE);
    }
  }

  function TiledEnd(from: nat, cs: seq<Chunk>): nat {
    from + |Flatten(cs)|
  }

  lemma {:induction false} TilesCut(src: seq<byte>, from: nat, to: nat, cs: seq<Chunk>, max: nat, n: nat)
    requires Tiles(src, from, to, cs, max) && n <= |cs|
    ensures Tiles(src, from, TiledEnd(from, cs[..n]), cs[..n], max)
    decreases n
  {
    if n > 0 {
      TilesCut(src, from + |cs[0].data|, to, cs[1..], max, n - 1);
      assert cs[..n][1..] == cs[1..][..n - 1];
    }
  }

  // ----- every upload can finish -----------------------------------------------------------------------

  /** What is left to send, to deliver and to take. */
  function Work(u: Upload, s: Sys): int {
    2 * |Script(u)| - s.sent - s.delivered + if s.accepted || s.result.Some? then 0 else 1
  }

  /** Until the flush has its result and everything has arrived, some step of the upload itself is
      possible. */
  lemma {:induction false} NeverStuck(cfg: P.Config, u: Upload, s: Sys) returns (a: Action, t: Sys)
    requires Inv(cfg, u, s) && (s.result.None? || s.delivered < s.sent)
    ensures !a.Other? && Next(cfg, u, s, a, t)
    ensures (s.intact ==> t.intact) && (s.delivered > 0 ==> t.created == s.created)
  {
    hide P.DestinationOf, SplitLast, P.Alone, Written, Entered, Script, P.Step, P.UploadReply, Destination;
    ScriptShape(u);
    if s.delivered < s.sent {
      a, t := Arrive(P.Done), Arrived(cfg, u, s, P.Done);
    } else if MaySend(u, s) {
      a := Send;
      t := s.(sent := s.sent + 1, result := if s.sent + 1 == |Script(u)| then Some(Flushed) else s.result);
    } else {
      a := TakeReply;
      t := if IsAcceptance(Some(s.replies[0])) then s.(replies := s.replies[1..], accepted := true)
           else s.(replies := s.replies[1..],
                   result := Some(if IsRejection(Some(s.replies[0])) then Forbidden else GeneralFailure));
    }
  }

  /** Steps of the upload itself use up its work, and nothing else adds to it. */
  lemma {:induction false} WorkShrinks(cfg: P.Config, u: Upload, s: Sys, a: Action, t: Sys)
    requires Inv(cfg, u, s) && Next(cfg, u, s, a, t)
    ensures 0 <= Work(u, t) <= Work(u, s) && (!a.Other? ==> Work(u, t) < Work(u, s))
  {
    hide P.DestinationOf, SplitLast, P.Alone, P.Foreign, Written, Script, P.Step;
    InvStep(cfg, u, s, a, t);
  }

  /** Every run, however far it has come, has a continuation in which the flush ends and everything sent
      has arrived, without a file operation failing from then on. It ends in success exactly when the upload
      addresses a file that could be created; if nothing had failed before, the file then is the buffer. */
  lemma {:induction false} CanComplete(cfg: P.Config, u: Upload, states: seq<Sys>, actions: seq<Action>)
    returns (more: seq<Sys>, acts: seq<Action>)
    requires IsRun(cfg, u, states, actions)
    ensures IsRun(cfg, u, more, acts) && states <= more && actions <= acts
    ensures var last := more[|more| - 1];
            && last.result.Some? && last.delivered == last.sent
            && (last.result == Some(Flushed) <==> Destination(cfg, u).File? && last.created)
            && (states[|actions|].intact ==> last.intact && last.created)
            && (states[|actions|].intact && Destination(cfg, u).File? ==>
                  Destination(cfg, u).path in last.peer.files
                  && last.peer.files[Destination(cfg, u).path] == u.data)
    decreases Work(u, states[|actions|])
  {
    hide P.DestinationOf, SplitLast, P.Alone, Written, Entered, Script, Next, Init, ChunksFrom, Destination;
    var s := states[|actions|];
    InvHolds(cfg, u, states, actions, |actions|);
    ScriptShape(u);
    if s.result.None? || s.delivered < s.sent {
      var a, t := NeverStuck(cfg, u, s);
      WorkShrinks(cfg, u, s, a, t);
      more, acts := CanComplete(cfg, u, states + [t], actions + [a]);
    } else {
      more, acts := states, actions;
      UploadDelivers(cfg, u, states, actions, |actions|);
    }
  }

  /** From the client's operations to the peer's disk: after any sequence of seeks, reads and writes, a
      flush that succeeds and has arrived without a failing file operation leaves a file whose every byte is
      the last one written there, and zero where nothing was. */
  lemma {:induction false} WrittenBytesArrive(cfg: P.Config, u: Upload, ops: seq<BufferOp>, padsEmpty: bool,
                                              states: seq<Sys>, actions: seq<Action>, k: nat, i: nat)
    requires IsRun(cfg, u, states, actions) && k < |states|
    requires u.data == Run(ops, padsEmpty).content && i < |u.data|
    requires states[k].result == Some(Flushed) && states[k].delivered == states[k].sent && states[k].intact
    ensures Destination(cfg, u).File? && Destination(cfg, u).path in states[k].peer.files
    ensures var file := states[k].peer.files[Destination(cfg, u).path];
            && |file| == |Run(ops, padsEmpty).content|
            && (forall w: nat :: LastWrote(ops, w, i, padsEmpty) ==>
                  file[i] == ops[w].data[i - Run(ops[..w], padsEmpty).pos])
            && ((forall w: nat :: !Wrote(ops, w, i, padsEmpty)) ==> file[i] == 0)
  {
    hide P.DestinationOf, IsRun, LastWrote, Wrote, Run, SplitLast;
    UploadDelivers(cfg, u, states, actions, k);
    LastWriteWins(ops, i, padsEmpty);
  }

  /** What was last written at an offset is at that offset of the peer's file. */
  lemma {:induction false} SoughtBytesArrive(cfg: P.Config, u: Upload, ops: seq<BufferOp>, n: nat, data: seq<byte>,
                                             padsEmpty: bool, states: seq<Sys>, actions: seq<Action>, k: nat)
    requires IsRun(cfg, u, states, actions) && k < |states|
    requires n <= 0xFFFF_FFFF_FFFF_FFFF && data != []
    requires u.data == Run(ops + [Seek(Start(n))] + [Write(data)], padsEmpty).content
    requires states[k].result == Some(Flushed) && states[k].delivered == states[k].sent && states[k].intact
    ensures Destination(cfg, u).File? && Destination(cfg, u).path in states[k].peer.files
    ensures var file := states[k].peer.files[Destination(cfg, u).path];
            n + |data| <= |file| && file[n..n + |data|] == data
  {
    hide Destination, IsRun, Run;
    UploadDelivers(cfg, u, states, actions, k);
    SeekThenWrite(ops, n, data, padsEmpty);
  }

  /** The file an upload addresses is the one its whole path resolves to. */
  lemma {:induction false} UploadAddressesWholePath(cfg: P.Config, u: Upload)
    requires AbsoluteShares(P.SharesOf(cfg, u.resource)) && Destination(cfg, u).File?
    ensures var r := ResolveIn(P.SharesOf(cfg, u.resource), u.path);
            r.Some? && r.value.At? && Names(r.value.local) == Destination(cfg, u).path
  {
    hide Names, ResolveIn, SplitLast;
    SplitAgreesWithWhole(P.SharesOf(cfg, u.resource), u.path);
  }

  /** The channel need not keep the order of the chunks: after the request, once each chunk of the
      buffer has arrived at least once, in any order, repeated, and interleaved with foreign events,
      the file is the buffer. */
  lemma {:induction false} ChunksInAnyOrder(cfg: P.Config, u: Upload, s: P.State, es: seq<P.Event>)
    requires Destination(cfg, u).File? && P.Alone(s, u.id, Destination(cfg, u).path)
    requires forall e :: e in es ==>
               P.OwnChunk(u.id, e) || P.Foreign(cfg, u.id, Destination(cfg, u).path, e)
    requires forall c :: c in P.ChunksIn(u.id, es) <==> c in ChunksFrom(u.data, 0)
    ensures var t := P.RunEvents(cfg, P.Step(cfg, s, P.Deliver(RequestOf(u), P.Done)), es);
            var path := Destination(cfg, u).path;
            path in t.files && t.files[path] == u.data
  {
    hide P.DestinationOf, SplitLast, ChunksFrom, P.Foreign;
    var path := Destination(cfg, u).path;
    P.Collects(cfg, P.Step(cfg, s, P.Deliver(RequestOf(u), P.Done)), u.id, path, es);
    ChunksTile(u.data, 0);
    AnyOrder(u.data, ChunksFrom(u.data, 0), CHUNK_SIZE, P.ChunksIn(u.id, es));
  }
}
