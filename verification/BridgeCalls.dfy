/** What the calls of a WebDAV client are answered from: runs of listing, metadata and clear calls with their
    addresses (web-davserver/src/fs.rs 28-53, 144-367; web-davserver/src/lib.rs 53-56). */
module BridgeCalls {
  import opened BridgeCaches
  import opened Text
  import opened Options

  datatype Call =
    | ListCall(resource: string, url: string, now: nat, reply: Reply, times: seq<nat>)
    | MetaCall(resource: string, url: string, now: nat, reply: Reply, stored: nat)
    | ClearCall(now: nat)

  /** A listing that is stored has a clock reading for itself and for each entry, none before the call. */
  predicate ValidCall(c: Call) {
    match c
    case ListCall(resource, url, now, reply, times) =>
      && OwnStore(ListOp(resource, url, now, reply, times))
      && (reply.EntriesReply? ==> times != [] && now <= times[0])
    case MetaCall(_, _, now, _, stored) => now <= stored
    case ClearCall(_) => true
  }

  function CallEnd(c: Call): nat {
    match c
    case ListCall(_, _, now, reply, times) => if reply.EntriesReply? && times != [] then times[|times| - 1] else now
    case MetaCall(_, _, _, _, stored) => stored
    case ClearCall(now) => now
  }

  /** Calls one after the other, with a clock that never runs backwards. */
  predicate ValidCalls(calls: seq<Call>) {
    && (forall i :: 0 <= i < |calls| ==> ValidCall(calls[i]))
    && (forall i, j :: 0 <= i < j < |calls| ==> CallEnd(calls[i]) <= calls[j].now)
  }

  function DoCall(c: Caches, call: Call): Caches
    requires ValidCall(call)
  {
    match call
    case ListCall(resource, url, now, reply, times) => ListStep(c, resource, url, now, reply, times).caches
    case MetaCall(resource, url, now, reply, stored) => MetaStep(c, resource, url, now, reply, stored).caches
    case ClearCall(now) => Perform(c, ClearOp(now))
  }

  function RunBridge(calls: seq<Call>): Caches
    requires forall i :: 0 <= i < |calls| ==> ValidCall(calls[i])
  {
    if calls == [] then EMPTY else DoCall(RunBridge(calls[..|calls| - 1]), calls[|calls| - 1])
  }

  // ----- where cached data comes from -----------------------------------------------------------------------

  predicate DirStored(c: Call, key: Key, cached: Cached<seq<Entry>>) {
    && c.ListCall? && c.reply.EntriesReply? && c.times != [] && Key(c.resource, SubPath(c.url)) == key
    && cached == Cached(EntriesOf(key.path, c.reply.directories, c.reply.files), c.times[0] + CACHE_TTL)
  }

  predicate MetaStored(c: Call, key: Key, cached: Cached<Entry>) {
    && c.MetaCall? && c.reply.MetadataReply? && c.reply.entry.Some? && Key(c.resource, SubPath(c.url)) == key
    && cached == Cached(c.reply.entry.value, c.stored + CACHE_TTL)
  }

  predicate ChildStored(c: Call, j: nat, key: Key, cached: Cached<Entry>) {
    && c.ListCall? && c.reply.EntriesReply?
    && FilledBy(cached, Key(c.resource, SubPath(c.url)),
                EntriesOf(SubPath(c.url), c.reply.directories, c.reply.files), c.times, j, key)
  }

  lemma {:induction false} DirOrigin(calls: seq<Call>, key: Key) returns (i: nat)
    requires ValidCalls(calls) && key in RunBridge(calls).dirs
    ensures i < |calls| && DirStored(calls[i], key, RunBridge(calls).dirs[key])
  {
    hide EntriesOf, FillMetas, IgnoredJunk, SubPath;
    var n := |calls| - 1;
    var before := RunBridge(calls[..n]);
    if key in before.dirs && RunBridge(calls).dirs[key] == before.dirs[key] {
      i := DirOrigin(calls[..n], key);
    } else {
      i := n;
    }
  }

  lemma {:induction false} MetaOrigin(calls: seq<Call>, key: Key) returns (i: nat)
    requires ValidCalls(calls) && key in RunBridge(calls).metas
    ensures i < |calls|
    ensures var cached := RunBridge(calls).metas[key];
            MetaStored(calls[i], key, cached) || exists j :: ChildStored(calls[i], j, key, cached)
  {
    hide EntriesOf, FillMetas, IgnoredJunk, SubPath, FilledBy;
    var n := |calls| - 1;
    var before, c := RunBridge(calls[..n]), calls[n];
    var cached := RunBridge(calls).metas[key];
    if key in before.metas && cached == before.metas[key] {
      i := MetaOrigin(calls[..n], key);
    } else {
      i := n;
      if c.ListCall? {
        var dir := Key(c.resource, SubPath(c.url));
        var entries := EntriesOf(dir.path, c.reply.directories, c.reply.files);
        FillMetasFrom(before.metas, dir, entries, c.times, |entries|, key);
        var j :| FilledBy(cached, dir, entries, c.times, j, key);
        assert ChildStored(c, j, key, cached);
      }
    }
  }

  // ----- what a call may return ---------------------------------------------------------------------------------

  /** The reading is less than 10 s old. */
  predicate Recent(stored: nat, now: nat) {
    stored <= now < stored + 10_000_000_000
  }

  /** The entries are those the reply lists, and for the root one synthetic file. */
  ghost predicate Reports(entries: seq<Entry>, url: string, reply: Reply) {
    && reply.EntriesReply?
    && forall e :: e in entries <==>
         || (e.isDir && e.size == 0 && e.name in reply.directories)
         || (!e.isDir && FileSize(e.name, e.size) in reply.files)
         || ((url == "" || url == "/") && e == Entry(".metadata_never_index", false, 0))
  }

  /** A listing call for the same resource and address that was answered with these entries. */
  ghost predicate SourceOfListing(q: Call, c: Call, entries: seq<Entry>) {
    && q.ListCall? && c.ListCall? && q.resource == c.resource && SameUrl(q.url, c.url)
    && Reports(entries, c.url, q.reply)
  }

  /** Whatever a listing call returns is what the peer answered to it, or to an earlier listing call for the same
      resource and address less than 10 s ago. */
  lemma {:induction false} ServedListing(calls: seq<Call>, k: nat) returns (i: nat)
    requires ValidCalls(calls) && k < |calls| && calls[k].ListCall?
    requires var c := calls[k];
             ListStep(RunBridge(calls[..k]), c.resource, c.url, c.now, c.reply, c.times).result.Listed?
    ensures i <= k
    ensures var c := calls[k];
            var r := ListStep(RunBridge(calls[..k]), c.resource, c.url, c.now, c.reply, c.times).result;
            && SourceOfListing(calls[i], c, r.entries)
            && (i < k ==> calls[i].times != [] && Recent(calls[i].times[0], c.now))
  {
    hide EntriesOf, IgnoredJunk, Perform, RunBridge;
    var c := calls[k];
    var key, before := Key(c.resource, SubPath(c.url)), RunBridge(calls[..k]);
    i := k;
    if Live(before.dirs, key, c.now) {
      i := DirOrigin(calls[..k], key);
      assert calls[..k][i] == calls[i];
      ReadBefore(calls, i, k);
    }
    var q := calls[i];
    SubPathExactly(q.url, c.url);
    ReportsReply(SubPath(c.url), c.url, q.reply);
  }

  lemma {:induction false} ReportsReply(path: string, url: string, reply: Reply)
    requires reply.EntriesReply? && path == SubPath(url)
    ensures Reports(EntriesOf(path, reply.directories, reply.files), url, reply)
  {
    hide EntriesOf;
    forall e ensures e in EntriesOf(path, reply.directories, reply.files) <==>
                     || (e.isDir && e.size == 0 && e.name in reply.directories)
                     || (!e.isDir && FileSize(e.name, e.size) in reply.files)
                     || (path == "/" && e == Entry(".metadata_never_index", false, 0))
    {
      ListingReportsReply(path, reply.directories, reply.files, e);
    }
  }

  /** The readings of an earlier call are not later than a call. */
  lemma {:induction false} ReadBefore(calls: seq<Call>, i: nat, k: nat)
    requires ValidCalls(calls) && i < k < |calls|
    ensures calls[i].MetaCall? ==> calls[i].stored <= calls[k].now
    ensures calls[i].ListCall? && calls[i].reply.EntriesReply? ==>
              forall j :: 0 <= j < |calls[i].times| ==> calls[i].times[j] <= calls[k].now
  {
    hide EntriesOf;
    assert CallEnd(calls[i]) <= calls[k].now;
    assert ValidCall(calls[i]);
  }

  /** A metadata call for the same resource and address that was answered with this record. */
  predicate SourceOfRecord(q: Call, c: Call, isDir: bool, size: nat) {
    && q.MetaCall? && c.MetaCall? && q.resource == c.resource && SameUrl(q.url, c.url)
    && q.reply.MetadataReply? && q.reply.entry.Some?
    && q.reply.entry.value.isDir == isDir && q.reply.entry.value.size == size
  }

  /** A listing call for the directory above, answered with an entry of the last name of the address. */
  ghost predicate SourceOfChild(q: Call, c: Call, e: Entry) {
    && q.ListCall? && c.MetaCall? && q.resource == c.resource
    && c.url == (if q.url == "" || q.url == "/" then "/" + e.name else q.url + "/" + e.name)
    && (exists entries :: e in entries && Reports(entries, q.url, q.reply))
  }

  /** Whatever a metadata call returns is fixed for the root and the synthetic file, what the peer answered to
      it, or what it answered less than 10 s ago to a metadata call for the same resource and address or to a
      listing call for the directory above. */
  lemma {:induction false} ServedMetadata(calls: seq<Call>, k: nat)
    requires ValidCalls(calls) && k < |calls| && calls[k].MetaCall?
    ensures var c := calls[k];
            match MetaStep(RunBridge(calls[..k]), c.resource, c.url, c.now, c.reply, c.stored).result
            case NoMeta => true
            case Meta(isDir, size) =>
              || ((c.url == "" || c.url == "/") && isDir && size == 0)
              || (EndsWith(c.url, ".metadata_never_index") && !isDir && size == 0)
              || SourceOfRecord(c, c, isDir, size)
              || (exists i :: 0 <= i < k && calls[i].MetaCall? && SourceOfRecord(calls[i], c, isDir, size)
                              && Recent(calls[i].stored, c.now))
              || (exists i, j, e: Entry ::
                    0 <= i < k && calls[i].ListCall? && 0 <= j < |calls[i].times| && e.isDir == isDir && e.size == size
                    && SourceOfChild(calls[i], c, e) && Recent(calls[i].times[j], c.now))
  {
    hide EntriesOf, IgnoredJunk, Perform, RunBridge;
    var c := calls[k];
    var before, key := RunBridge(calls[..k]), Key(c.resource, SubPath(c.url));
    if c.url != "" && Live(before.metas, key, c.now) {
      var i := MetaOrigin(calls[..k], key);
      var cached := before.metas[key];
      assert calls[..k][i] == calls[i];
      ReadBefore(calls, i, k);
      if MetaStored(calls[i], key, cached) {
        SubPathExactly(calls[i].url, c.url);
        assert SourceOfRecord(calls[i], c, cached.data.isDir, cached.data.size);
      } else {
        var j :| ChildStored(calls[i], j, key, cached);
        ChildSource(calls[i], j, c, cached);
        assert Recent(calls[i].times[j + 1], c.now);
      }
    }
  }

  lemma {:induction false} ChildSource(q: Call, j: nat, c: Call, cached: Cached<Entry>)
    requires c.MetaCall? && c.url != "" && ChildStored(q, j, Key(c.resource, c.url), cached)
    ensures SourceOfChild(q, c, cached.data)
  {
    hide EntriesOf;
    var entries := EntriesOf(SubPath(q.url), q.reply.directories, q.reply.files);
    assert entries[j] in entries;
    ReportsReply(SubPath(q.url), q.url, q.reply);
  }
}
