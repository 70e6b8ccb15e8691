# A verified model of p2p-functions

The repository lets peers share folders: a WebDAV bridge mounts a peer's share as a local drive, file
contents travel in numbered chunks, synchronised folders are scanned and compared, and a peer can fetch
URLs for another. This project models the stateful protocols and the text algorithms under those features
and proves what they promise. `dafny verify dfyconfig.toml` checks all of it.

Objects that the code updates in place are classes whose methods are proved equal to a transition function
on values; loops are loops with invariants; the results over whole runs are lemmas about those transition
functions. No lemma leaves its induction to Dafny.

| module | what it models |
|---|---|
| `Text` | splitting, joining, trimming, searching |
| `VirtualPath` | `resolve_in`, `virtual_parent`, the sandbox, the bridge's split at the last slash |
| `Chunks`, `TransferMessages` | positional writes, tilings of a file, the transfer messages |
| `WriteHandle`, `HandleRun` | `NodeInNetDavFile`: cursor, seek, read, write, flush, and what flush results mean |
| `Peer` | `active_downloads`, `active_uploads` and the transfer arms of the message handler |
| `UploadRun` | a flush, a first-in first-out channel and the peer, with other transfers interleaved |
| `FileSender` | the reader with short reads, the forwarder, the temporary file that results |
| `NonceTable`, `DigestHeader` | digest challenges and the parameters of the Authorization header |
| `BridgeCaches`, `BridgeCalls`, `Pending` | the two caches with a ten-second life, and the operations' programs with reply correlation |
| `Xbel` | the bookmark edits of a desktop's places file |
| `SyncDiff`, `SyncScan`, `CopyTree` | folder comparison, the pruned scan, tree duplication |
| `WebProxy` | the redirect loop and the stream of messages to the peer |

What comes from outside is a parameter: clock readings, ids and nonces, the outcome of file operations and
of reads, replies of the peer, answers of web servers, and the MD5 function.

## Where the code falls short, and the exact condition

- A backslash in a directory name breaks `virtual_parent`: the round trip holds if and only if no component
  above the entry contains one (`VirtualPath.ParentRoundTrip`, `VirtualPath.ClimbExactly`).
- A rejected upload whose file could not be created stays in `active_downloads`, and its chunks would still be
  written; this happens exactly when the folder and the name were accepted and the creation failed
  (`Peer.RejectedUpload`). The first flush of a handle, once it has a result, is a success if and only if the file
  could be created: it never learns of a chunk that could not be written (`UploadRun.UploadDelivers`).
- Every later flush reports success and sends nothing, also after a first one that was rejected. What has been
  delivered by then is all that was written if and only if the first flush was accepted and the writes after it did
  not change the content (`HandleRun.FlushTells`, `HandleRun.QuietKeeps`).
- The sender completes a download also after a read error. The receiver then has what was read before the error;
  the temporary file is the source if and only if the source is not empty and reading got to its last byte. The
  download of an empty file never creates the temporary file (`FileSender.DownloadArrives`,
  `FileSender.LateErrorIsHarmless`).
- A listing and the metadata stored with it agree if and only if no name in it stands for two different
  entries (`BridgeCaches.StoredTogetherAgree`). The synthetic root file breaks this exactly when the reply for the
  root lists something of its name that is not a file of size 0 (`BridgeCaches.RootNames`,
  `BridgeCaches.SyntheticFileClashes`).
- Overlapping operations can bring the two caches into disagreement, by a late metadata reply or by a listing
  that is stored between the two halves of a clear. Under any interleaving the caches stay coherent if and only
  if every step agrees with the live listings when it is made (`BridgeCaches.CoherentExactly`).
- Two feeds at once can reorder the replies of an operation. What an operation gets is in feed order if and only
  if no reply is put into its open queue ahead of an earlier one, which a single feeder never does
  (`Pending.FeedOrder`, `Pending.SingleFeeder`, `Pending.OverlappingFeedsReorder`).
- A claimed reply is lost if and only if its operation drops its receiver between the lookup and the use of the
  sender (`Pending.LostExactly`); a reply that is in the queue when the receiver is dropped is never read
  (`Pending.DroppedUnread`). In neither case is anybody told.
- The digest header parser splits at every comma, also inside quotes; printing and parsing are inverse if and
  only if keys and values have the form stated in `DigestHeader.RoundTrip`.
- A counter is taken if and only if it is an optional plus sign and at least one hexadecimal digit, with a value of
  64 bits (`NonceTable.CounterSyntax`). Section 3.4 of RFC 7616 asks for eight digits: a text that is taken has that
  form if and only if it has eight characters and no plus sign, and `1` and `+00000001` do not
  (`NonceTable.StandardExactly`, `NonceTable.OtherForms`).
- A response without qop or without cnonce says nothing about the counter. Captured and sent again at any later time
  with another counter or none, it passes if and only if its nonce is still fresh, no request passed on it without a
  counter, and its counter, if it has one, is larger than that of every request that passed on it
  (`NonceTable.CapturedResponse`). With nonce and counter unchanged no request ever passes twice
  (`NonceTable.NoReplay`).
- A file duplicated onto itself is emptied, with success reported: the target holds what the source held if and
  only if it is another path or the source was empty (`CopyTree.FileSystem.DuplicateEntry`). A directory duplicated
  onto itself succeeds too, and every file below it is emptied (`CopyTree.SelfCopyEmpties`).
- A file's own path decides what the scan lists, in every tree, if and only if the pattern is hereditary (empty, `*`,
  or not starting with `*` and either free of slashes or ending in `*`) or matches no path that a tree can have. The
  second is the case exactly when the pattern, with a leading `*` replaced by a letter, is no such path: `build/` is
  harmless, `src/build` and `*.tmp` are not (`SyncScan.OwnPathExactly`).
- A folder only the peer has does not appear in the diff (`SyncDiff.RemoteFolderCovered`).
- After a 301 or 302 the proxy continues with GET whatever the method was, where sections 15.4.2 and 15.4.3 of
  RFC 9110 allow that for POST only. All hops of a run use a permitted method if and only if the original method
  was GET or POST or the first redirect other than 307 and 308 is no 301 or 302 (`WebProxy.HopMethod`,
  `WebProxy.RunMethods`).
- A body that a read error cuts off reaches the peer as if it were complete (`WebProxy.CutBodyLooksWhole`).

## Model

| member | source | states |
|---|---|---|
| VirtualPath.SandboxNames | node-functions/src/fs_local.rs:17-27 | a peer-supplied path is accepted exactly when no component is `..`; the result is the base's components followed by the path's |
| VirtualPath.NamesLaws | node-functions/src/fs_local.rs:20-25 | which segments of a path are components: all but empty ones and `.`; `..` stays one |
| VirtualPath.NamesReadBack | node-functions/src/fs_local.rs:20-25 | proper names joined by slashes are read back as the components |
| VirtualPath.ResolveInOneShare | p2p-handlers/src/fs_local.rs:41-53 | without shares nothing resolves; with one, every path is sandboxed in it under the empty prefix |
| VirtualPath.ResolveByFirstName | p2p-handlers/src/fs_local.rs:54-68 | with several shares, a path is slashes, a name and a rest: slashes alone list all share names in order, a name no share has gives nothing, and otherwise the first share of exactly that name is entered, under its own prefix |
| VirtualPath.ResolvedInsideShare | p2p-handlers/src/fs_local.rs:41-69 | every resolved entry lies in one of the shares, at its base followed by components none of which is `..`, under that share's virtual prefix |
| VirtualPath.ResolveBelow | p2p-handlers/src/fs_local.rs:41-69 | resolving the virtual text of any relative path inside a share is exactly the sandbox applied to that path, refusals included |
| VirtualPath.ParentNames | p2p-handlers/src/fs_local.rs:76 | the parent of an absolute path has all its components but the last, and is missing exactly for the root |
| VirtualPath.ParentRelNames | p2p-handlers/src/fs_local.rs:76-80 | the text below the share base has the entry's components without the last, and none for the share root |
| VirtualPath.VirtualTextShape | p2p-handlers/src/fs_local.rs:81-86 | a virtual path starts with a slash, has no superfluous one, and names the prefix and then the rest |
| VirtualPath.ParentRoundTrip | p2p-handlers/src/fs_local.rs:75-87 | resolving an entry's virtual parent gives its parent in the same share (the root for the root) if and only if no component above it contains a backslash |
| VirtualPath.ReplaceKeepsNames | p2p-handlers/src/fs_local.rs:79 | turning backslashes into slashes keeps the components if and only if none of them has a backslash |
| VirtualPath.ClimbToShareRoot | p2p-handlers/src/fs_local.rs:41-87 | n steps to the virtual parent lose exactly n components, so the share root is reached in as many steps as there are components below it and never left |
| VirtualPath.ClimbExactly | p2p-handlers/src/fs_local.rs:41-87 | this holds for every number of steps if and only if no component above the entry contains a backslash |
| VirtualPath.SplitAgreesWithWhole | web-davserver/src/fs.rs:380-388 | for every path, the bridge's parent half resolved on the peer plus the accepted name is the entry the whole path resolves to |
| VirtualPath.SplitLastHalves | web-davserver/src/fs.rs:380-388 | the halves of every path: a name without slashes and what stands before the slash in front of it, or the root |
| VirtualPath.AcceptedExactly | p2p-handlers/src/fs_local.rs:437 | a name is accepted if and only if it contains neither two dots in a row nor a slash nor a backslash |
| Chunks.WriteAt | node-functions/src/fs_local.rs:232-253 | the length and every byte of a file after a positional write: new data, old bytes, zeros in the gap; an empty write changes nothing |
| Chunks.TilesFlatten | web-davserver/src/fs.rs:692-704 | the pieces of a tiling put together are the tiled range of the source |
| Chunks.ImageStep | node-functions/src/fs_local.rs:232-253 | one more chunk keeps "covered bytes equal the source, gaps are zero, the length is the largest end seen" |
| Chunks.DeliveredBytes | p2p-handlers/src/fs_local.rs:649-660 | that image is what any chunks of one source leave behind, in any order and with any repetition |
| Chunks.AnyOrder | p2p-handlers/src/fs_local.rs:649-660 | once all chunks of a tiling were written, in any order and repeated, the file equals the source |
| Chunks.InOrder | p2p-handlers/src/fs_local.rs:649-660 | chunks written in order leave a prefix of the source at every moment |
| WriteHandle.DavFile.WriteBytes | web-davserver/src/fs.rs:630-635 | the new buffer and position after a write, and no change on a read handle |
| WriteHandle.DavFile.WriteBuf | web-davserver/src/fs.rs:612-622 | the loop over a buffer's pieces is the sequence of their writes |
| WriteHandle.PiecesDoNotMatter | web-davserver/src/fs.rs:612-622 | writing a buffer piece by piece stores what writing it at once stores, however it is cut |
| WriteHandle.DavFile.ReadBytes | web-davserver/src/fs.rs:624-629 | a read returns exactly the bytes from the cursor on, as many as asked for or as there are, and advances by their number |
| WriteHandle.DavFile.SeekPos | web-davserver/src/fs.rs:636-638 | the cursor moves to the offset counted from the start, the end or the cursor, if that is from 0 to 2^64-1; otherwise the seek is refused without a move |
| WriteHandle.LastWriteWins | web-davserver/src/fs.rs:612-638 | after any seeks, reads and writes every byte is the one the last write to it stored, or zero if none did |
| WriteHandle.WroteInside | web-davserver/src/fs.rs:612-638 | no byte that was stored is ever cut off |
| WriteHandle.ContentEnd | web-davserver/src/fs.rs:612-638 | the content ends with a byte that some write stored or, with a library that pads on empty writes, at the position of such a write |
| WriteHandle.SeekGoes | web-davserver/src/fs.rs:636-638 | after any operations a seek moves to its target, if that is a 64-bit offset, and changes no byte |
| WriteHandle.SeekThenWrite | web-davserver/src/fs.rs:630-638 | after any operations, a write after a seek to n stores its bytes at n, keeps all others and fills a gap with zeros |
| WriteHandle.ReadBack | web-davserver/src/fs.rs:624-638 | and a read after a seek back to n returns them |
| WriteHandle.ChunksTile | web-davserver/src/fs.rs:692-704 | the flush's chunks are consecutive non-empty slices of 16384 bytes, the last perhaps shorter, that cover the whole buffer |
| WriteHandle.SendChunks | web-davserver/src/fs.rs:692-704 | the loop sends exactly those chunks with their offsets, and nothing for an empty buffer |
| WriteHandle.DavFile.Flush | web-davserver/src/fs.rs:639-718 | the first flush sends the request, and after an acceptance alone the chunks and the completion; a rejection is Forbidden, anything else a failure; further flushes send nothing |
| HandleRun.UploadData | web-davserver/src/fs.rs:692-710 | the chunks of a whole upload carry exactly its data; a request alone delivers nothing |
| HandleRun.BeforeFlush | web-davserver/src/fs.rs:612-641 | until the first flush the handle holds all that was written and has sent nothing |
| HandleRun.AfterFlush | web-davserver/src/fs.rs:639-717 | after it nothing is sent any more and every flush reports success |
| HandleRun.FlushTells | web-davserver/src/fs.rs:612-718 | the first flush reports success if and only if it was accepted, and then all that was written was sent; at a later flush what was delivered is all that was written if and only if the first was accepted and later writes did not change the content |
| HandleRun.QuietKeeps | web-davserver/src/fs.rs:612-638 | where no byte is written after the first flush the content does not change |
| Peer.Node.HandleUploadRequest | p2p-handlers/src/fs_local.rs:411-471 | the new table, files and reply for every branch of an upload request |
| Peer.Node.HandleTransferResponse | p2p-handlers/src/fs_local.rs:567-648 | an accepted offer leaves the table of offers and names the file to send; any other acceptance opens a temporary download |
| Peer.Node.HandleChunk | p2p-handlers/src/fs_local.rs:649-683 | a chunk of an active transfer is written at its offset; a chunk of none changes nothing |
| Peer.Node.HandleComplete | p2p-handlers/src/fs_local.rs:684-720 | a completion removes its own transfer and nothing else |
| Peer.DestinationExactly | p2p-handlers/src/fs_local.rs:423-447 | an upload addresses a file if and only if the resource is configured, the folder resolves inside a share and the name is accepted; the file is that name in that folder, and each refusal has its own reason |
| Peer.ForeignFrame | p2p-handlers/src/fs_local.rs:411-710 | no message of another transfer and no change elsewhere on the machine touches a transfer's entry or its file |
| Peer.Collects | p2p-handlers/src/fs_local.rs:649-683 | over every interleaving an active transfer's file is what its own chunks write |
| Peer.InactiveChunks | p2p-handlers/src/fs_local.rs:649-683 | the same for any transfer that is not in the table |
| Peer.LateChunk | p2p-handlers/src/fs_local.rs:649-710 | after a completion, the transfer's chunks make no difference to the outcome of any later events that do not open it again |
| Peer.RejectedUpload | p2p-handlers/src/fs_local.rs:423-471 | a rejected upload stays in the table, with its chunks still written, exactly when its file could not be created; the other refusals leave no trace and neither do their chunks |
| UploadRun.ScriptShape | web-davserver/src/fs.rs:663-710 | the order, number and contents of an upload's messages |
| UploadRun.ArrivalWrites | p2p-handlers/src/fs_local.rs:411-471 | each arriving message takes the peer to the next stage of the upload: entered, n chunks written, closed; the table whatever becomes of the file operation, the file when it succeeds |
| UploadRun.InvStep | web-davserver/src/fs.rs:678-712 | every step of the flush, the channel, the peer or anything else, with any outcome of file operations, keeps the system invariant |
| UploadRun.UploadDelivers | web-davserver/src/fs.rs:639-718 | in every run, a flush with a result succeeded if and only if the file could be created; when its messages arrived the transfer is closed and, unless a file operation failed, the addressed file is exactly the buffer, and a prefix of it before; otherwise one message is sent, and after a failed creation the entry stays |
| UploadRun.NeverStuck | web-davserver/src/fs.rs:678-712 | until the flush has its result and all has arrived, a step of the upload is possible |
| UploadRun.WorkShrinks | web-davserver/src/fs.rs:678-712 | the upload's own steps use up a bounded amount of work that no other step adds to |
| UploadRun.CanComplete | web-davserver/src/fs.rs:639-718 | every run can be continued to the end, which is a success if and only if the upload addresses a file that could be created, with exactly the buffer in it if nothing failed before |
| UploadRun.WrittenBytesArrive | web-davserver/src/fs.rs:612-718 | from the client's seeks and writes to the peer's disk: each byte of the file is the last one written there, or zero |
| UploadRun.SoughtBytesArrive | web-davserver/src/fs.rs:630-718 | what was written last after a seek to n is at offset n of the peer's file |
| UploadRun.UploadAddressesWholePath | p2p-handlers/src/fs_local.rs:423-447 | the file an upload addresses is the one its whole path resolves to |
| UploadRun.ChunksInAnyOrder | p2p-handlers/src/fs_local.rs:649-683 | the file equals the buffer also when the channel reorders and repeats the chunks among foreign messages |
| FileSender.PiecesTile | node-functions/src/fs_local.rs:172-189 | every pattern of short reads tiles the file up to the number of bytes read, which is all of it unless a read failed |
| FileSender.ReadFile | node-functions/src/fs_local.rs:163-195 | the reader hands over those pieces and then one end mark or one error |
| FileSender.Forward | p2p-handlers/src/fs_local.rs:504-552 | the loop sends chunks with accumulated offsets and then the completion |
| FileSender.ForwardedTiling | p2p-handlers/src/fs_local.rs:504-552 | the accumulated offsets are the true positions; the completion follows also after a read error |
| FileSender.HandleDownloadRequest | p2p-handlers/src/fs_local.rs:472-566 | a download request is answered by one rejection, also when the file cannot be opened, by the size, every piece at its position and the completion, or for a directory by a size and a completion |
| FileSender.SourceExactly | p2p-handlers/src/fs_local.rs:479-493 | a request addresses an entry if and only if the resource is configured and the path resolves inside one of its shares |
| FileSender.DownloadFindsUpload | p2p-handlers/src/fs_local.rs:423-493 | a download of a path reads the file that an upload to that path wrote |
| FileSender.SendOffered | p2p-handlers/src/fs_local.rs:578-632 | an accepted offer is sent as the same stream, for a directory as a completion alone, or not at all when it cannot be opened |
| FileSender.DownloadArrives | p2p-handlers/src/fs_local.rs:634-683 | for every history of reads and any order of arrival the temporary file is what was read; it exists if and only if something was, and is the source if and only if that is not empty and was read to its end |
| FileSender.LateErrorIsHarmless | node-functions/src/fs_local.rs:172-189 | every source has a history that ends in a read error with the whole source read |
| NonceTable.PrintedCounterParses | web-davserver/src/auth.rs:292-294 | a counter printed in hexadecimal with leading zeros is read back, if and only if it fits 64 bits |
| NonceTable.CounterSyntax | web-davserver/src/auth.rs:292-294 | a text is taken for a counter if and only if it is an optional plus sign and one or more hexadecimal digits of a 64-bit value |
| NonceTable.HexDigitExactly | web-davserver/src/auth.rs:292 | the sixteen digits in either case with their values, and no other character |
| NonceTable.UseExactly | web-davserver/src/auth.rs:290-303 | a request without a counter text, with one that spells a number, and with any other one |
| NonceTable.StandardExactly | web-davserver/src/auth.rs:292-294 | every text of eight hexadecimal digits is taken, and a text that is taken is one if and only if it has eight characters and no plus sign |
| NonceTable.OtherForms | web-davserver/src/auth.rs:292-294 | `1` and `+00000001` are taken for 1 and are no such texts |
| NonceTable.Nonces.IssueNonce | web-davserver/src/auth.rs:273-285 | the table after an issue: expired entries gone, the new one unused |
| NonceTable.Nonces.AcceptNonce | web-davserver/src/auth.rs:287-305 | the new table, and acceptance if and only if the nonce is in the table, less than 300 s old, and a counter text, if there is one, spells a number above the highest so far |
| NonceTable.DoTracks | web-davserver/src/auth.rs:273-305 | the pruned table keeps tracking the complete history, and decides by it |
| NonceTable.PruningIsInvisible | web-davserver/src/auth.rs:273-305 | in every run each decision is that of the rule on the history that is never pruned: issued under 300 s ago, not used up, counter above all accepted ones |
| NonceTable.AcceptedCountersIncrease | web-davserver/src/auth.rs:287-305 | accepted counters of a nonce are positive and strictly increasing, no pair is accepted twice, and an acceptance without a counter is the last |
| NonceTable.AcceptedWhileFresh | web-davserver/src/auth.rs:287-289 | every acceptance follows the issue of its nonce by less than 300 s |
| NonceTable.OtherNoncesDoNotMatter | web-davserver/src/auth.rs:287-305 | two runs that agree on a nonce's own events decide its next use alike |
| NonceTable.WrongResponseChangesNothing | web-davserver/src/auth.rs:399-431 | the challenge a wrong response causes can be left out of any run without changing a later decision or the record of any other nonce |
| NonceTable.CountingClientIsAccepted | web-davserver/src/auth.rs:287-305 | a client that uses 1, 2, 3, ... within 300 s is always accepted, whatever happens on other nonces |
| NonceTable.ValidateDigest | web-davserver/src/auth.rs:369-406 | a wrong user or response leaves the table as it was; a right one is decided by the table |
| NonceTable.RightExactly | web-davserver/src/auth.rs:374-401 | a response is right if and only if the user is the configured one and it is the hash of exactly these texts, joined by colons: hashed credentials, nonce, the three qop fields if all are there, hashed method and uri |
| NonceTable.ResponseBinds | web-davserver/src/auth.rs:379-401 | under a hash without collisions, one response that is right for two requests forces the same method, uri, realm and nonce, and the same nc, cnonce and qop if all three are there |
| NonceTable.HandleRequest | web-davserver/src/auth.rs:408-436 | without configured authentication every request passes; with it, exactly those with a right response to a fresh challenge, and the others are given a new challenge |
| NonceTable.RequestsAreCalls | web-davserver/src/auth.rs:408-436 | the table after any run of requests is the table after the calls they make |
| NonceTable.RequestsAreLegal | web-davserver/src/auth.rs:408-436 | with a clock that does not run backwards and new nonces those calls are legal, so that all results about calls hold for requests |
| NonceTable.PassIsAccepted | web-davserver/src/auth.rs:418-422 | a request that passes is an acceptance in the history |
| NonceTable.NoReplay | web-davserver/src/auth.rs:399-403 | over any run of requests, none passes with the nonce and counter text of an earlier one that passed |
| NonceTable.RightPassesByRule | web-davserver/src/auth.rs:399-403 | in any run, a request with a right response passes exactly by the rule on the whole history |
| NonceTable.HistoryReflects | web-davserver/src/auth.rs:287-305 | what the history says of a nonce is what the requests that passed on it say |
| NonceTable.ResponseIgnoresCounter | web-davserver/src/auth.rs:388-401 | without qop or cnonce the right response is the same for every counter |
| NonceTable.CapturedResponse | web-davserver/src/auth.rs:388-403 | in any run, such a response sent again with another counter or none passes if and only if its nonce is fresh, none passed on it without a counter, and its counter is above those of all requests that passed on it |
| DigestHeader.ParseDigestHeader | web-davserver/src/auth.rs:356-367 | the loop computes the map of the parts, later duplicates winning |
| DigestHeader.ParsedIsCarried | web-davserver/src/auth.rs:360-363 | whatever the parser yields has a trimmed key without `,` and `=` and a value without commas and edge quotes |
| DigestHeader.ParsePrinted | web-davserver/src/auth.rs:360-363 | a printed parameter is parsed back, with or without the space after the comma |
| DigestHeader.RoundTrip | web-davserver/src/auth.rs:356-367 | parsing the printed header gives the parameters back if and only if every one of them has that form |
| DigestHeader.ReadsBack | web-davserver/src/auth.rs:360-363 | a printed parameter, in quotes or not, is read back under its key, with its value if and only if it is in quotes or trimmed |
| DigestHeader.RoundTripMixed | web-davserver/src/auth.rs:356-367 | with quoted and unquoted values mixed, parsing gives the parameters back if and only if each is carried and each unquoted value is trimmed |
| DigestHeader.AuthReadsBack | web-davserver/src/auth.rs:319-343 | a header printed from parameters that survive gives a request if and only if they hold its fields, each under its own name, the optional ones only if they are there |
| DigestHeader.AuthMissing | web-davserver/src/auth.rs:319-354 | without the scheme or one of the five required parameters there is no request |
| Text.TrimTakes | web-davserver/src/auth.rs:360-362 | trimming takes all white space off both ends and nothing else |
| Text.SpacesExactly | web-davserver/src/auth.rs:360-362 | the characters that count as white space |
| BridgeCaches.ListingReportsReply | web-davserver/src/fs.rs:205-223 | a cached listing holds exactly the reply's directories and files, and at the root the one synthetic file |
| BridgeCaches.ListingInOrder | web-davserver/src/fs.rs:205-223 | first the directories in order, then the files in order, then at the root the synthetic file |
| BridgeCaches.SubPathExactly | web-davserver/src/fs.rs:31-36 | two addresses have the same path if and only if they are equal or both mean the root |
| BridgeCaches.JunkExactly | web-davserver/src/fs.rs:43-53 | exactly eight kinds of last names are ignored, in every directory |
| BridgeCaches.ChildPathInjective | web-davserver/src/fs.rs:238-242 | two children share a path only when directory and name agree, for names without slashes |
| BridgeCaches.ChildPathSplits | web-davserver/src/fs.rs:238-242 | a child's path splits back into exactly the directory and the name |
| BridgeCaches.DirProvenance | web-davserver/src/fs.rs:160-180 | a live listing was stored by some reply for the same key less than 10 s earlier |
| BridgeCaches.MetaProvenance | web-davserver/src/fs.rs:305-318 | a live metadata record was stored by some reply for the same path, on its own or with a listing, less than 10 s before by its own clock reading |
| BridgeCaches.BoundedStaleness | web-davserver/src/fs.rs:160-352 | both hold over every interleaving of lookups, stores and clears that the two locks allow |
| BridgeCaches.StoreDirCoherent | web-davserver/src/fs.rs:225-252 | storing a listing with its metadata keeps the caches coherent, other directories included |
| BridgeCaches.StoreMetaCoherent | web-davserver/src/fs.rs:342-352 | storing metadata after a miss keeps the caches coherent |
| BridgeCaches.PerformCoherent | web-davserver/src/fs.rs:144-367 | every whole operation keeps the caches coherent |
| BridgeCaches.CachesStayCoherent | web-davserver/src/fs.rs:144-367 | over every run of operations that do not overlap, each entry of a live listing has metadata with the same data and no earlier expiry |
| BridgeCaches.StoredTogetherAgree | web-davserver/src/fs.rs:205-252 | a listing and the metadata stored with it agree if and only if no name stands for two different entries |
| BridgeCaches.RootNames | web-davserver/src/fs.rs:205-223 | the synthetic root file keeps names consistent if and only if the reply lists nothing of its name but a file of size 0 |
| BridgeCaches.SyntheticFileClashes | web-davserver/src/fs.rs:205-207 | a reply that lists that file with another size breaks it |
| BridgeCaches.OverlapBreaksCoherence | web-davserver/src/fs.rs:305-352 | a run in which a late metadata reply leaves the caches in disagreement |
| BridgeCaches.ClearBreaksCoherence | web-davserver/src/lib.rs:53-56 | a run in which a listing stored between the two halves of a clear loses its metadata |
| BridgeCaches.StoreMetaExactly | web-davserver/src/fs.rs:342-352 | storing metadata keeps the caches coherent if and only if it equals every live listing's entry of that path |
| BridgeCaches.ClearMetasExactly | web-davserver/src/lib.rs:55 | clearing the metadata keeps them coherent if and only if no live listing has an entry |
| BridgeCaches.StoreDirExactly | web-davserver/src/fs.rs:225-252 | storing a listing keeps them coherent if and only if its names are consistent or it is dead on arrival |
| BridgeCaches.StepExactly | web-davserver/src/fs.rs:144-367 | every atomic step from coherent caches leads to coherent ones if and only if it is safe |
| BridgeCaches.CoherentExactly | web-davserver/src/fs.rs:144-367 | under any interleaving the caches are coherent after each of the first n steps if and only if each of these was safe when it was made |
| BridgeCaches.Bridge.ClearCaches | web-davserver/src/lib.rs:53-56 | a clear is the transition of the coherence theorem and empties both caches |
| BridgeCaches.Bridge.ReadDir | web-davserver/src/fs.rs:144-274 | result and both caches of a listing, under the resource and the address (the empty one meaning the root): hit, expired, miss, failed, ignored names |
| BridgeCaches.Bridge.Metadata | web-davserver/src/fs.rs:276-367 | result and both caches of a metadata call, under the resource and the address, with the root and the synthetic file answered from nothing |
| BridgeCalls.DirOrigin | web-davserver/src/fs.rs:160-234 | over runs of calls, a cached listing was stored by a listing call of the same resource and address |
| BridgeCalls.MetaOrigin | web-davserver/src/fs.rs:237-352 | over runs of calls, a cached record was stored by a metadata call of the same resource and address or as a child of a listing |
| BridgeCalls.ServedListing | web-davserver/src/fs.rs:144-274 | whatever a listing call returns is what the peer answered to it, or less than 10 s earlier to a listing call of the same resource and address |
| BridgeCalls.ServedMetadata | web-davserver/src/fs.rs:276-367 | whatever a metadata call returns is fixed for the root and the synthetic file, or what the peer answered to it, or less than 10 s earlier to a metadata call of the same resource and address or to a listing call of the directory above |
| Pending.StepRoles | web-davserver/src/lib.rs:17-33 | every step of an operation's program and of the feeders keeps the pending map equal to the operations between registration and the drop of their guard, and receivers alive exactly until they are dropped |
| Pending.WaitersAreRegistered | web-davserver/src/fs.rs:182-199 | a waiting operation is in the map, so its receiver never sees all senders gone |
| Pending.StepDelivery | web-davserver/src/lib.rs:192-196 | every step keeps what an operation received, has waiting or left unread equal to the replies that reached its queue, in order |
| Pending.StepConserved | web-davserver/src/lib.rs:178-200 | every step keeps each fed message in exactly one place: handed back, held, delivered or lost |
| Pending.StepOrdered | web-davserver/src/lib.rs:192-196 | every step keeps claimed and held replies in feed order, and none delivered twice |
| Pending.Correlation | web-davserver/src/lib.rs:178-200 | all of these hold over every interleaving of concurrent operations and feeders |
| Pending.FeedOrder | web-davserver/src/lib.rs:192-196 | what an operation has received, has waiting or left unread is a prefix of its claimed replies in feed order if and only if no reply entered its queue ahead of an earlier one |
| Pending.LookupOrderIsKept | web-davserver/src/lib.rs:192-196 | when an operation's replies are used in lookup order, those delivered, then those lost, then those held are all its claimed replies in feed order |
| Pending.SingleFeeder | web-davserver/src/lib.rs:178-200 | feeds that do not overlap keep that order for every operation |
| Pending.OverlappingFeedsReorder | web-davserver/src/lib.rs:192-196 | a run in which two overlapping feeds swap two replies |
| Pending.LostExactly | web-davserver/src/lib.rs:192-196 | a claimed reply is lost if and only if its operation drops its receiver between the lookup and the push, and is queued last otherwise |
| Pending.QueueUntilDrop | web-davserver/src/fs.rs:182-199 | a receiver exists until its operation drops it, whatever is interleaved |
| Pending.DroppedUnread | web-davserver/src/fs.rs:182-199 | dropping a receiver discards exactly what waits in its queue, and nothing is handed back |
| Pending.PromptFeed | web-davserver/src/lib.rs:178-200 | a feed that is not interrupted queues the reply for its operation or hands it back unchanged |
| Pending.ReplyCanBeLost | web-davserver/src/lib.rs:192-196 | a run in which a reply is lost between the lookup and the push |
| Pending.ReplyCanStayUnread | web-davserver/src/lib.rs:192-196 | a run in which a reply reaches its queue and is never read |
| Pending.PendingRequests.Begin | web-davserver/src/fs.rs:182-189 | registering adds one id with an empty queue |
| Pending.PendingRequests.FeedResponse | web-davserver/src/lib.rs:178-200 | a reply goes to the end of its own queue, everything else comes back |
| Pending.PendingRequests.End | web-davserver/src/lib.rs:27-33 | dropping the guard removes exactly its own id |
| Xbel.PlacesFile.SetPlace | web-davserver/src/lib.rs:299-320 | the new text of the places file, no change when it cannot be read, and whatever a failed write leaves |
| Xbel.HrefInBlock | web-davserver/src/lib.rs:309-314 | an inserted block contains the address of a port only at the block's own address, and only for its own port |
| Xbel.DecInjective | web-davserver/src/lib.rs:323 | different ports are printed differently |
| Xbel.DecReadsBack | web-davserver/src/lib.rs:323 | a printed port is read back, in digits alone and without a leading zero |
| Xbel.AddressText | web-davserver/src/lib.rs:285-290 | the address without and with a secret |
| Xbel.BlockText | web-davserver/src/lib.rs:309-314 | the inserted text, piece by piece |
| Xbel.RemoveBlock | web-davserver/src/lib.rs:322-337 | removing a port's entry leaves everything around its block and the block's leading space and line break |
| Xbel.ClosingFound | web-davserver/src/lib.rs:315-317 | the insertion point is the document's last closing tag, whatever was inserted before it |
| Xbel.RemoveFromDoc | web-davserver/src/lib.rs:322-337 | in a document with one entry per port, a removal takes out that port's entry and no other text |
| Xbel.RemoveExactly | web-davserver/src/lib.rs:322-337 | in any text, a removal cuts out the element from the last opening tag before the port's first address to the first closing tag after that, and changes nothing if there is no such element |
| Xbel.EditDoc | web-davserver/src/lib.rs:299-320 | one edit of the text is one edit of the list of entries |
| Xbel.EditsActOnEntries | web-davserver/src/lib.rs:299-337 | for any sequence of adds and removes the text is the untouched base around the list of entries; without a closing tag it never changes |
| Xbel.OneEntryPerPort | web-davserver/src/lib.rs:299-337 | no sequence of edits leaves a port with two entries |
| Xbel.OneAddressPerPort | web-davserver/src/lib.rs:299-337 | in the text after any sequence of edits a port's address occurs at most once, and exactly when the port has an entry |
| Xbel.AddThenRemove | web-davserver/src/lib.rs:299-337 | adding and removing an entry restores the text up to the block's leading space and line break |
| Xbel.OtherPortsSurvive | web-davserver/src/lib.rs:322-337 | an edit for one port leaves all other ports' entries in place |
| SyncDiff.ListRemote | node-functions/src/sync_folder.rs:40-71 | the first loop yields one item for each remote file, in order |
| SyncDiff.ListUnmatched | node-functions/src/sync_folder.rs:72-85 | the second loop yields one item for each local file without a counterpart, in order |
| SyncDiff.DiffFolder | node-functions/src/sync_folder.rs:39-96 | a folder the peer does not have is compared as an empty one |
| SyncDiff.ComputeSyncDiff | node-functions/src/sync_folder.rs:33-99 | the whole diff is the folders' diffs in order |
| SyncDiff.FindFileFirst | node-functions/src/sync_folder.rs:41-43 | the first file of a path is the one compared |
| SyncDiff.FindFolderFirst | node-functions/src/sync_folder.rs:39 | the folder looked up is the one of that name, and none if there is none |
| SyncDiff.RemoteStatesInOrder | node-functions/src/sync_folder.rs:40-71 | the remote states of a folder's items are the remote list, in order, whatever the paths |
| SyncDiff.LocalStatesPermuted | node-functions/src/sync_folder.rs:40-85 | the local states are a permutation of the local list |
| SyncDiff.DiffIsExact | node-functions/src/sync_folder.rs:39-85 | a folder's diff holds exactly the rightly classified items of the paths of the union, each path once |
| SyncDiff.WholeDiffIsExact | node-functions/src/sync_folder.rs:33-99 | in the whole diff, the items of a folder both sides have are exactly those of the union of its paths: each state found under its path on its side, and the difference decided by presence, hash and size |
| SyncDiff.SwapSides | node-functions/src/sync_folder.rs:39-85 | exchanging the sides exchanges the states and LocalOnly with RemoteOnly |
| SyncDiff.AllIdentical | node-functions/src/sync_folder.rs:45-61 | all items are Identical if and only if both sides map the same paths to the same hashes and sizes |
| SyncDiff.FoldersAreIndependent | node-functions/src/sync_folder.rs:38-97 | within the whole diff the items of a folder are exactly that folder's own diff |
| SyncDiff.RemoteFolderCovered | node-functions/src/sync_folder.rs:38-39 | a peer's folder is covered if and only if it is known locally or empty |
| SyncScan.KeepEntry | node-functions/src/sync_folder.rs:123-156 | the filter keeps an entry exactly when it is the root or no pattern matches |
| SyncScan.PatternMeaning | node-functions/src/sync_folder.rs:131-152 | a pattern matches exactly the paths it is a component of, equals, begins before a final star, or ends after a leading star |
| SyncScan.ScanFolder | node-functions/src/sync_folder.rs:158-199 | the stack-driven walk lists what the recursive pruned walk lists, in order |
| SyncScan.WalkIsFilter | node-functions/src/sync_folder.rs:123-199 | pruning below any kept directory equals filtering its files by all their ancestors |
| SyncScan.ScanMeetsSpecification | node-functions/src/sync_folder.rs:121-199 | a file is listed if and only if neither its path nor any ancestor directory below the root matches a pattern |
| SyncScan.OwnPathSuffices | node-functions/src/sync_folder.rs:131-152 | with hereditary patterns this is a check of the file's own path |
| SyncScan.MatchedIsReal | node-functions/src/sync_folder.rs:136-151 | a pattern that is not hereditary matches a path of a tree only if the directory it stands for can exist |
| SyncScan.HarmlessSuffices | node-functions/src/sync_folder.rs:131-152 | with harmless patterns the own path decides for every path of a tree |
| SyncScan.ScanByOwnPath | node-functions/src/sync_folder.rs:121-199 | with harmless patterns the scan of every tree lists exactly the files whose own path is not ignored |
| SyncScan.OwnPathExactly | node-functions/src/sync_folder.rs:121-199 | this holds for all trees if and only if the pattern is harmless |
| SyncScan.EscapingPath | node-functions/src/sync_folder.rs:136-151 | for every pattern that is not harmless, a path of some tree that escapes although its directory is ignored |
| CopyTree.FileSystem.CreateDirAll | node-functions/src/fs_local.rs:144 | the target and its ancestors become directories, or nothing changes because a file stands in the way |
| CopyTree.MayBeDirExactly | node-functions/src/fs_local.rs:144 | a directory can be created if and only if no file stands at the path or above it |
| CopyTree.FileSystem.CopyFile | node-functions/src/fs_local.rs:136-139 | when a file copy succeeds, and the one node it changes; a file copied onto itself is emptied |
| CopyTree.FileSystem.CopyTree | node-functions/src/fs_local.rs:143-155 | the copy succeeds if and only if the source is a directory, no file stands at or above the target, and no file meets a directory below; success lays the whole source tree over the target; in any case nothing outside the target and its missing ancestors changes; the recursion ends |
| CopyTree.FileSystem.DuplicateEntry | node-functions/src/fs_local.rs:131-161 | the same for a file or a directory, chosen by what the source is; a duplicated file holds what the source held if and only if the paths differ or it was empty |
| CopyTree.ProgressStep | node-functions/src/fs_local.rs:145-153 | copying one more child extends the part of the tree that is done and disturbs no other |
| CopyTree.ProgressEnd | node-functions/src/fs_local.rs:145-154 | when all children are done the whole tree is laid over the target |
| CopyTree.ExactCopy | node-functions/src/fs_local.rs:131-161 | for a target that does not exist and is not under the source, the target's subtree equals the source's, the source is unchanged and only missing ancestors were created |
| CopyTree.SelfCopyEmpties | node-functions/src/fs_local.rs:143-155 | a directory laid over itself keeps its tree and loses the contents of all files |
| WebProxy.RedirectLoop | node-functions/src/web_proxy.rs:57-115 | over any server behaviour: at most 11 requests, each checked for its own address and aimed where the answer before it pointed; the original method and body while all redirects were 307 or 308, a GET without body from then on; too many redirects if and only if all 11 answers redirect |
| WebProxy.RunExactly | node-functions/src/web_proxy.rs:57-115 | a whole run: the first request is the given one; each further one goes where a status from 300 to 399 with a location that can be joined points, with method and body kept after a 307 or 308 only; none goes to a refused address; the outcome is the last answer if and only if it does not redirect, the error of a failed or refused request, or too many redirects after eleven |
| WebProxy.VerbExactly | node-functions/src/web_proxy.rs:40-48 | which texts name which method, in any mix of cases; all others mean GET |
| WebProxy.OtherSpellings | node-functions/src/web_proxy.rs:40 | the characters outside ASCII that spell ASCII letters in upper case |
| WebProxy.SentExactly | node-functions/src/web_proxy.rs:70-74 | exactly the headers not called host, in any mix of cases, are sent |
| WebProxy.PassedOnExactly | node-functions/src/web_proxy.rs:119-131 | a response header is passed on if and only if its value is text and it is not one of the three dropped ones; the last text of a name counts |
| WebProxy.HopMethod | node-functions/src/web_proxy.rs:95-102 | a redirect keeps the method if and only if it is a 307 or 308 or the method is GET, and uses one that RFC 9110 permits if and only if it is no 301 or 302 or the method is GET or POST |
| WebProxy.RunMethods | node-functions/src/web_proxy.rs:60-108 | all hops of a run use a permitted method if and only if the original one is GET or POST or the first redirect other than 307 and 308 is no 301 or 302 |
| WebProxy.FollowRedirects | node-functions/src/web_proxy.rs:60-115 | the loop over target, method and body makes exactly those requests |
| WebProxy.PassResponse | node-functions/src/web_proxy.rs:117-150 | the loops over headers and body yield the start, each chunk and the completion, up to the event at which the receiver goes away |
| WebProxy.ExecuteProxiedRequest | node-functions/src/web_proxy.rs:32-151 | an unparsable URL makes no request and one error; anything else makes a first request with the given method, address, sent headers and body and follows the redirect loop; a receiver that goes away gets the first events |
| WebProxy.SendSlices | p2p-handlers/src/web_proxy.rs:41-58 | the inner loop sends the slices of a chunk |
| WebProxy.SlicesShape | p2p-handlers/src/web_proxy.rs:41-58 | slices have 1 to 60000 bytes and together are the chunk |
| WebProxy.ForwardEvents | p2p-handlers/src/web_proxy.rs:28-98 | the receive loop sends the messages of each event in order |
| WebProxy.BodyMessages | p2p-handlers/src/web_proxy.rs:41-58 | the messages of a body are chunks of 1 to 60000 bytes whose concatenation is the body |
| WebProxy.StreamGrammar | p2p-handlers/src/web_proxy.rs:27-98 | every run is one start, chunks and one completion; on success the payload is the bytes read, in order, and otherwise a 502 with the error text |
| WebProxy.EarlyEnd | node-functions/src/web_proxy.rs:133-150 | a receiver that goes away gets a beginning of that stream |
| WebProxy.CutBodyLooksWhole | node-functions/src/web_proxy.rs:144-150 | a body cut off by a read error gives the same stream as a whole one |

## Left out

- UploadRun.UploadDelivers: assumes that no other transfer or program writes to the same path; a failed write may
  leave anything, so the contents are stated for runs in which no file operation of the upload failed.
- FileSender.DownloadArrives: assumes that the source does not change while it is read and that the receiver's
  writes succeed.
- BridgeCaches.CachesStayCoherent: holds for operations that do not overlap and for listings with slash-free,
  consistent names; for overlapping ones see `BridgeCaches.CoherentExactly`, which keeps the slash-free names.
- CopyTree.FileSystem.CopyTree: two overlaps of source and target are not modelled, since the code has no definite
  outcome there: a directory copied into itself, where the recursion goes on until the system refuses the path, and
  one copied onto an ancestor that gets an entry of the name on the way to the source, where the directory changes
  while it is listed. Read errors of the operating system are not modelled either.
- CopyTree.FileSystem.DuplicateEntry: for directories, the same two overlaps.
- NonceTable.HandleRequest: one clock reading for each call on the nonce table.
- Pending.Correlation: a lock poisoned by a panic, after which a guard leaves its entry in the map, is not
  modelled.
- WebProxy.ExecuteProxiedRequest: the address check is a parameter of each hop.
- The dispatcher that decides whether the bridge or the handler sees a message is outside the repository: handler
  calls are taken one at a time, and channels keep their order where nothing else is said.
- Creating, deleting and renaming on the peer: they appear as changes made by something else on the machine.
- The WebDAV download through `open`, which needs that dispatcher.
- Directories in the transfer model's file map, file permissions, dates, progress events and log lines.
- Reads after the bridge's own writes: its writes do not invalidate the caches.
- 64-bit overflow of file offsets and memory limits. Offers are entered by the program around the handler, outside
  the repository (`Peer.Node.OfferFile`).
- Md5 of scanned files, resource configuration, sorted-map keys (a sequence in key order) and folders that cannot
  be read.
- Windows paths, symbolic links, names that are not UTF-8, percent-encoding of URLs, sessions without a drive.
- Mounting, port search, the HTTP and WebDAV libraries, MD5, UUIDs, JSON and sockets.
- Desktop, terminal, registry, system-information and SOCKS functions: little state beyond forwarding.
