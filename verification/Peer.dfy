/** The receiving side of file transfers: the table of active transfers and the files they write
    (p2p-handlers/src/fs_local.rs, transfer arms of handle_local_fs_message). */
module Peer {
  import opened Chunks
  import opened TransferMessages
  import opened VirtualPath
  import opened Options

  /** A file, named by the components of its absolute path. */
  type FilePath = seq<string>

  type Files = map<FilePath, seq<byte>>

  datatype Target = Target(path: FilePath, totalSize: nat)

  /** downloads are the transfers this node receives, uploads the ones it offered. */
  datatype State = State(files: Files, downloads: map<Id, Target>, uploads: map<Id, FilePath>)

  datatype Config = Config(shares: map<string, seq<Share>>, tempDir: FilePath)

  /** The outcome of a file operation; a failed one may leave anything at its path. */
  datatype Io = Done | Failed(left: Option<seq<byte>>, reason: string)

  function SharesOf(cfg: Config, resource: string): seq<Share> {
    if resource in cfg.shares then cfg.shares[resource] else []
  }

  function Store(files: Files, path: FilePath, content: seq<byte>, io: Io): Files {
    match io
    case Done => files[path := content]
    case Failed(Some(left), _) => files[path := left]
    case Failed(None, _) => files - {path}
  }

  function ContentOf(files: Files, path: FilePath): seq<byte> {
    if path in files then files[path] else []
  }

  const NO_FOLDER := "Cannot upload here (unknown share or virtual root)"
  const BAD_NAME := "Invalid file name"

  /** The file an upload request addresses, or the reason it is refused. */
  datatype Destination = File(path: FilePath) | Refused(reason: string)

  function DestinationOf(cfg: Config, resource: string, targetPath: string, fileName: string): Destination {
    match ResolveIn(SharesOf(cfg, resource), targetPath)
    case Some(At(dir, _, _)) =>
      if AcceptedName(fileName) then File(Names(JoinPath(dir, fileName))) else Refused(BAD_NAME)
    case _ => Refused(NO_FOLDER)
  }

  datatype Event =
    | Deliver(msg: Msg, io: Io)
    | External(path: FilePath, content: Option<seq<byte>>)
    | Offer(id: Id, path: FilePath)

  /** One handled message, a change of a file by anything else on the machine, or an offer to send a file,
      which the program around the handler enters in the table of uploads. */
  function Step(cfg: Config, s: State, e: Event): State {
    match e
    case External(path, content) =>
      s.(files := if content.Some? then s.files[path := content.value] else s.files - {path})
    case Offer(id, path) => s.(uploads := s.uploads[id := path])
    case Deliver(FileUploadRequest(resource, targetPath, fileName, totalSize, id), io) =>
      (match DestinationOf(cfg, resource, targetPath, fileName)
       case Refused(_) => s
       case File(path) =>
         s.(downloads := s.downloads[id := Target(path, totalSize)], files := Store(s.files, path, [], io)))
    case Deliver(FileTransferResponse(id, Accepted(totalSize)), _) =>
      if id in s.uploads then s.(uploads := s.uploads - {id})
      else s.(downloads := s.downloads[id := Target(cfg.tempDir + [id], totalSize)])
    case Deliver(FileTransferResponse(_, Rejected(_)), _) => s
    case Deliver(FileChunk(id, offset, data), io) =>
      if id in s.downloads then
        var path := s.downloads[id].path;
        s.(files := Store(s.files, path, WriteAt(ContentOf(s.files, path), offset, data), io))
      else s
    case Deliver(FileTransferComplete(id), _) => s.(downloads := s.downloads - {id})
    case Deliver(FileDownloadRequest(_, _, _), _) => s
  }

  /** An upload addresses a file if and only if the resource is configured, the folder resolves to an entry of
      one of its shares and the name is accepted; the file is that name in that folder. */
  lemma {:induction false} DestinationExactly(cfg: Config, resource: string, targetPath: string, fileName: string)
    ensures var d := DestinationOf(cfg, resource, targetPath, fileName);
            if resource in cfg.shares && ResolveIn(cfg.shares[resource], targetPath).Some?
               && ResolveIn(cfg.shares[resource], targetPath).value.At?
            then
              var dir := ResolveIn(cfg.shares[resource], targetPath).value.local;
              if AcceptedName(fileName) then d == File(Names(dir) + Names(fileName))
              else d == Refused("Invalid file name")
            else d == Refused("Cannot upload here (unknown share or virtual root)")
  {
    hide Names, JoinPath;
    if resource in cfg.shares {
      match ResolveIn(cfg.shares[resource], targetPath)
      case Some(At(dir, _, _)) => NamesJoinPath(dir, fileName);
      case _ =>
    } else {
      assert ResolveIn([], targetPath) == None;
    }
  }

  /** The answer to an upload request. */
  function UploadReply(cfg: Config, msg: Msg, io: Io): Status
    requires msg.FileUploadRequest?
  {
    match DestinationOf(cfg, msg.resource, msg.targetPath, msg.fileName)
    case Refused(reason) => Rejected(reason)
    case File(_) => if io.Done? then Accepted(msg.totalSize) else Rejected(io.reason)
  }

  /** The node that handles the messages, one after the other. */
  class Node {
    var files: Files
    var downloads: map<Id, Target>
    var uploads: map<Id, FilePath>
    const cfg: Config

    constructor (cfg: Config, files: Files)
      ensures Now() == State(files, map[], map[]) && this.cfg == cfg
    {
      this.cfg, this.files := cfg, files;
      downloads, uploads := map[], map[];
    }

    function Now(): State
      reads this
    {
      State(files, downloads, uploads)
    }

    method OfferFile(id: Id, path: FilePath)
      modifies this`uploads
      ensures Now() == Step(cfg, old(Now()), Offer(id, path))
    {
      uploads := uploads[id := path];
    }

    method HandleUploadRequest(msg: Msg, io: Io) returns (reply: Msg)
      requires msg.FileUploadRequest?
      modifies this
      ensures Now() == Step(cfg, old(Now()), Deliver(msg, io))
      ensures reply == FileTransferResponse(msg.id, UploadReply(cfg, msg, io))
    {
      var dir := match ResolveIn(SharesOf(cfg, msg.resource), msg.targetPath)
                 case Some(At(local, _, _)) => Some(local)
                 case _ => None;
      if dir.None? {
        return FileTransferResponse(msg.id, Rejected(NO_FOLDER));
      }
      if !AcceptedName(msg.fileName) {
        return FileTransferResponse(msg.id, Rejected(BAD_NAME));
      }
      var path := Names(JoinPath(dir.value, msg.fileName));
      downloads := downloads[msg.id := Target(path, msg.totalSize)];
      files := Store(files, path, [], io);
      reply := FileTransferResponse(msg.id, if io.Done? then Accepted(msg.totalSize) else Rejected(io.reason));
    }

    /** An accepted offer starts sending (the returned path); any other acceptance opens a temporary
        download. */
    method HandleTransferResponse(id: Id, status: Status) returns (started: Option<FilePath>)
      modifies this`downloads, this`uploads
      ensures Now() == Step(cfg, old(Now()), Deliver(FileTransferResponse(id, status), Done))
      ensures started == if status.Accepted? && id in old(uploads) then Some(old(uploads)[id]) else None
    {
      started := None;
      if status.Accepted? {
        if id in uploads {
          started := Some(uploads[id]);
          uploads := uploads - {id};
        } else {
          downloads := downloads[id := Target(cfg.tempDir + [id], status.totalSize)];
        }
      }
    }

    method HandleChunk(id: Id, offset: nat, data: seq<byte>, io: Io)
      modifies this`files
      ensures Now() == Step(cfg, old(Now()), Deliver(FileChunk(id, offset, data), io))
    {
      if id in downloads {
        var path := downloads[id].path;
        files := Store(files, path, WriteAt(ContentOf(files, path), offset, data), io);
      }
    }

    method HandleComplete(id: Id)
      modifies this`downloads
      ensures Now() == Step(cfg, old(Now()), Deliver(FileTransferComplete(id), Done))
    {
      downloads := downloads - {id};
    }
  }

  // ----- one transfer among others ------------------------------------------------------------------

  /** The event belongs to other transfers and other paths. */
  predicate Foreign(cfg: Config, id: Id, path: FilePath, e: Event) {
    match e
    case External(p, _) => p != path
    case Offer(_, _) => true
    case Deliver(msg, _) =>
      && msg.id != id
      && (msg.FileUploadRequest? ==>
            DestinationOf(cfg, msg.resource, msg.targetPath, msg.fileName) != File(path))
      && (msg.FileTransferResponse? ==> cfg.tempDir + [msg.id] != path)
  }

  /** No other active transfer writes to path. */
  predicate Alone(s: State, id: Id, path: FilePath) {
    forall i :: i in s.downloads && i != id ==> s.downloads[i].path != path
  }

  /** What a foreign event leaves alone: the file at path, the entry of id, and the lack of rivals. */
  ghost predicate Kept(s: State, t: State, id: Id, path: FilePath) {
    && Alone(t, id, path)
    && (path in t.files <==> path in s.files)
    && (path in s.files ==> t.files[path] == s.files[path])
    && (id in t.downloads <==> id in s.downloads)
    && (id in s.downloads ==> t.downloads[id] == s.downloads[id])
  }

  lemma {:induction false} StoreElsewhere(s: State, id: Id, path: FilePath, other: FilePath, content: seq<byte>, io: Io)
    requires Alone(s, id, path) && other != path
    ensures Kept(s, s.(files := Store(s.files, other, content, io)), id, path)
  {
  }

  lemma {:induction false} ForeignFrame(cfg: Config, s: State, id: Id, path: FilePath, e: Event)
    requires Alone(s, id, path) && Foreign(cfg, id, path, e)
    ensures Kept(s, Step(cfg, s, e), id, path)
  {
    hide DestinationOf, WriteAt, Store;
    match e
    case External(p, content) =>
    case Offer(_, _) =>
    case Deliver(FileUploadRequest(resource, targetPath, fileName, totalSize, other), io) =>
      var d := DestinationOf(cfg, resource, targetPath, fileName);
      if d.File? {
        StoreElsewhere(s.(downloads := s.downloads[other := Target(d.path, totalSize)]), id, path, d.path, [], io);
      }
    case Deliver(FileTransferResponse(other, Accepted(totalSize)), _) =>
    case Deliver(FileTransferResponse(_, Rejected(_)), _) =>
    case Deliver(FileChunk(other, offset, data), io) =>
      if other in s.downloads {
        var p := s.downloads[other].path;
        StoreElsewhere(s, id, path, p, WriteAt(ContentOf(s.files, p), offset, data), io);
      }
    case Deliver(FileTransferComplete(_), _) =>
    case Deliver(FileDownloadRequest(_, _, _), _) =>
  }

  function RunEvents(cfg: Config, s: State, es: seq<Event>): State {
    if es == [] then s else Step(cfg, RunEvents(cfg, s, es[..|es| - 1]), es[|es| - 1])
  }

  predicate OwnChunk(id: Id, e: Event) {
    e.Deliver? && e.msg.FileChunk? && e.msg.id == id && e.io.Done?
  }

  /** The chunks of this transfer, in order of arrival. */
  function ChunksIn(id: Id, es: seq<Event>): seq<Chunk> {
    if es == [] then []
    else
      var e := es[|es| - 1];
      ChunksIn(id, es[..|es| - 1]) + if OwnChunk(id, e) then [Chunk(e.msg.offset, e.msg.data)] else []
  }

  /** While a transfer is active and everything else is foreign, its file is what its own chunks
      write; a file that did not exist exists from the first chunk on. */
  lemma {:induction false} Collects(cfg: Config, s: State, id: Id, path: FilePath, es: seq<Event>)
    requires Alone(s, id, path) && id in s.downloads && s.downloads[id].path == path
    requires forall e :: e in es ==> OwnChunk(id, e) || Foreign(cfg, id, path, e)
    ensures var t := RunEvents(cfg, s, es);
            && Alone(t, id, path) && id in t.downloads && t.downloads[id] == s.downloads[id]
            && (path in t.files <==> path in s.files || ChunksIn(id, es) != [])
            && ContentOf(t.files, path) == Chunks.Deliver(ContentOf(s.files, path), ChunksIn(id, es))
  {
    hide Foreign, Step, WriteAt, OwnChunk;
    if es != [] {
      var init, e := es[..|es| - 1], es[|es| - 1];
      Collects(cfg, s, id, path, init);
      var cs := ChunksIn(id, init);
      if OwnChunk(id, e) {
        OwnStep(cfg, RunEvents(cfg, s, init), id, path, e);
        var c := Chunk(e.msg.offset, e.msg.data);
        assert (cs + [c])[..|cs|] == cs;
      } else {
        ForeignFrame(cfg, RunEvents(cfg, s, init), id, path, e);
        assert cs + [] == cs;
      }
    }
  }

  lemma {:induction false} OwnStep(cfg: Config, s: State, id: Id, path: FilePath, e: Event)
    requires Alone(s, id, path) && id in s.downloads && s.downloads[id].path == path
    requires OwnChunk(id, e)
    ensures e.Deliver? && e.msg.FileChunk?
    ensures var t := Step(cfg, s, e);
            && t.downloads == s.downloads && path in t.files
            && t.files[path] == WriteAt(ContentOf(s.files, path), e.msg.offset, e.msg.data)
  {
  }

  /** A message that may make a transfer active again. */
  predicate Reopens(id: Id, e: Event) {
    && e.Deliver? && e.msg.id == id
    && (e.msg.FileUploadRequest? || (e.msg.FileTransferResponse? && e.msg.status.Accepted?))
  }

  /** The events without the chunks of one transfer, whatever became of their file operations. */
  function WithoutChunks(id: Id, es: seq<Event>): seq<Event> {
    if es == [] then []
    else
      var e := es[|es| - 1];
      WithoutChunks(id, es[..|es| - 1])
      + if e.Deliver? && e.msg.FileChunk? && e.msg.id == id then [] else [e]
  }

  lemma {:induction false} InactiveChunks(cfg: Config, s: State, id: Id, es: seq<Event>)
    requires id !in s.downloads && forall e :: e in es ==> !Reopens(id, e)
    ensures RunEvents(cfg, s, es) == RunEvents(cfg, s, WithoutChunks(id, es))
    ensures id !in RunEvents(cfg, s, es).downloads
  {
    hide Step;
    if es != [] {
      var init, e := es[..|es| - 1], es[|es| - 1];
      InactiveChunks(cfg, s, id, init);
      InactiveStep(cfg, RunEvents(cfg, s, init), id, e);
      var kept := WithoutChunks(id, init);
      assert (kept + [e])[..|kept|] == kept && kept + [] == kept;
    }
  }

  lemma {:induction false} InactiveStep(cfg: Config, s: State, id: Id, e: Event)
    requires id !in s.downloads && !Reopens(id, e)
    ensures id !in Step(cfg, s, e).downloads
    ensures e.Deliver? && e.msg.FileChunk? && e.msg.id == id ==> Step(cfg, s, e) == s
  {
    hide DestinationOf, WriteAt, Store;
  }

  /** After its completion a transfer's chunks change nothing at all: over any later events that do not open
      it again, the outcome is the one without them. */
  lemma {:induction false} LateChunk(cfg: Config, s: State, id: Id, es: seq<Event>)
    requires forall e :: e in es ==> !Reopens(id, e)
    ensures var done := Step(cfg, s, Deliver(FileTransferComplete(id), Done));
            RunEvents(cfg, done, es) == RunEvents(cfg, done, WithoutChunks(id, es))
  {
    InactiveChunks(cfg, Step(cfg, s, Deliver(FileTransferComplete(id), Done)), id, es);
  }

  /** An upload whose file could not be created is rejected but stays in the table, and its chunks are still
      written; one refused for its folder or name leaves no trace, and neither do its chunks. */
  lemma {:induction false} RejectedUpload(cfg: Config, s: State, msg: Msg, io: Io, offset: nat, data: seq<byte>)
    requires msg.FileUploadRequest? && msg.id !in s.downloads && UploadReply(cfg, msg, io).Rejected?
    ensures var t := Step(cfg, s, Deliver(msg, io));
            var u := Step(cfg, t, Deliver(FileChunk(msg.id, offset, data), Done));
            match DestinationOf(cfg, msg.resource, msg.targetPath, msg.fileName)
            case Refused(_) => t == s && u == s
            case File(path) =>
              && io.Failed? && msg.id in u.downloads
              && path in u.files && u.files[path] == WriteAt(ContentOf(t.files, path), offset, data)
  {
    hide Names, ResolveIn, WriteAt;
  }

  /** An accepted upload starts with an empty file. */
  lemma {:induction false} AcceptedUpload(cfg: Config, s: State, msg: Msg, io: Io)
    requires msg.FileUploadRequest?
    ensures UploadReply(cfg, msg, io).Accepted? ==>
              var t := Step(cfg, s, Deliver(msg, io));
              msg.id in t.downloads && t.downloads[msg.id].path in t.files && t.files[t.downloads[msg.id].path] == []
  {
    hide Names, ResolveIn;
  }
}
