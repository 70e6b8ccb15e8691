/** The messages of a file transfer. */
module TransferMessages {
  import opened Chunks

  type Id = string

  datatype Status = Accepted(totalSize: nat) | Rejected(reason: string)

  datatype Msg =
    | FileUploadRequest(resource: string, targetPath: string, fileName: string, totalSize: nat, id: Id)
    | FileDownloadRequest(resource: string, filePath: string, id: Id)
    | FileTransferResponse(id: Id, status: Status)
    | FileChunk(id: Id, offset: nat, data: seq<byte>)
    | FileTransferComplete(id: Id)

  /** The chunk messages of one transfer. */
  function ChunkMsgs(id: Id, cs: seq<Chunk>): (ms: seq<Msg>)
    ensures |ms| == |cs|
    ensures forall k :: 0 <= k < |cs| ==> ms[k] == FileChunk(id, cs[k].offset, cs[k].data)
  {
    seq(|cs|, k requires 0 <= k < |cs| => FileChunk(id, cs[k].offset, cs[k].data))
  }

  lemma {:induction false} ChunkMsgsStep(id: Id, c: Chunk, cs: seq<Chunk>)
    ensures ChunkMsgs(id, [c] + cs) == [FileChunk(id, c.offset, c.data)] + ChunkMsgs(id, cs)
  {
  }
}
