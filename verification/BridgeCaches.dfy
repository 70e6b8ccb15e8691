/** The two caches of the WebDAV bridge and the operations that fill them
    (web-davserver/src/fs.rs 28-53, 144-367; web-davserver/src/lib.rs 35-56). Times are nanoseconds of a
    clock that never runs backwards. */
module BridgeCaches {
  import opened Text
  import opened VirtualPath
  import opened Options

  const CACHE_TTL: nat := 10 * 1_000_000_000
  const NEVER_INDEX := ".metadata_never_index"

  datatype Entry = Entry(name: string, isDir: bool, size: nat)

  /** A resource id and a path in it. */
  datatype Key = Key(resource: string, path: string)

  datatype Cached<T> = Cached(data: T, expires: nat)

  datatype Caches = Caches(dirs: map<Key, Cached<seq<Entry>>>, metas: map<Key, Cached<Entry>>)

  const EMPTY := Caches(map[], map[])

  datatype FileSize = FileSize(name: string, size: nat)

  // ----- paths and listings ----------------------------------------------------------------------------

  /** The path an operation works on; the empty path is the root. */
  function SubPath(url: string): string {
    if url == "" then "/" else url
  }

  function LastName(path: string): string {
    path[AfterLast(path, '/')..]
  }

  predicate IgnoredJunk(path: string) {
    var name := LastName(path);
    || name == ".DS_Store" || "._" <= name || name == ".Spotlight-V100" || name == ".Trashes"
    || name == ".fseventsd" || name == "Thumbs.db" || name == "desktop.ini" || name == "autorun.inf"
  }

  function ChildPath(path: string, name: string): string {
    if path == "/" then "/" + name else path + "/" + name
  }

  /** The cached form of a reply: directories, then files; the root gets one synthetic file. */
  function EntriesOf(path: string, directories: seq<string>, files: seq<FileSize>): seq<Entry> {
    var all := if path == "/" then files + [FileSize(NEVER_INDEX, 0)] else files;
    seq(|directories|, i requires 0 <= i < |directories| => Entry(directories[i], true, 0))
    + seq(|all|, i requires 0 <= i < |all| => Entry(all[i].name, false, all[i].size))
  }

  /** Two addresses give the same path if and only if they are the same or both mean the root. */
  lemma {:induction false} SubPathExactly(a: string, b: string)
    ensures SubPath(a) == SubPath(b) <==> SameUrl(a, b)
    ensures SubPath(a) != "" && (a != "" ==> SubPath(a) == a)
  {
  }

  /** The empty address is the root's. */
  predicate SameUrl(a: string, b: string) {
    a == b || ((a == "" || a == "/") && (b == "" || b == "/"))
  }

  /** Exactly these names are ignored, wherever they stand. */
  lemma {:induction false} JunkExactly(dir: string, name: string)
    requires '/' !in name
    ensures forall path | path == name || path == dir + "/" + name ::
              IgnoredJunk(path) <==>
              || (|name| >= 2 && name[0] == '.' && name[1] == '_')
              || name in {".DS_Store", ".Spotlight-V100", ".Trashes", ".fseventsd",
                          "Thumbs.db", "desktop.ini", "autorun.inf"}
  {
    LastSlash(dir, name);
    NoSlash(name);
    JunkName(name, name);
    JunkName(dir + "/" + name, name);
  }

  lemma {:induction false} JunkName(path: string, name: string)
    requires path[AfterLast(path, '/')..] == name
    ensures IgnoredJunk(path) <==>
            || (|name| >= 2 && name[0] == '.' && name[1] == '_')
            || name in {".DS_Store", ".Spotlight-V100", ".Trashes", ".fseventsd",
                        "Thumbs.db", "desktop.ini", "autorun.inf"}
  {
    hide AfterLast;
    assert "._" <= name <==> |name| >= 2 && name[0] == '.' && name[1] == '_';
  }

  lemma {:induction false} NoSlash(name: string)
    requires '/' !in name
    ensures AfterLast(name, '/') == 0
  {
    assert forall k :: 0 <= k < |name| ==> name[k] in name;
  }

  /** The directories of the reply in order, then its files in order, then at the root the synthetic file. */
  lemma {:induction false} ListingInOrder(path: string, directories: seq<string>, files: seq<FileSize>)
    ensures var r, n := EntriesOf(path, directories, files), |directories| + |files|;
            && |r| == (if path == "/" then n + 1 else n)
            && (forall i :: 0 <= i < |directories| ==> r[i] == Entry(directories[i], true, 0))
            && (forall i :: 0 <= i < |files| ==> r[|directories| + i] == Entry(files[i].name, false, files[i].size))
            && (path == "/" ==> r[n] == Entry(".metadata_never_index", false, 0))
  {
  }

  /** A child's path splits back into the directory and the name. */
  lemma {:induction false} ChildPathSplits(path: string, name: string)
    requires path != "" && '/' !in name
    ensures SplitLast(ChildPath(path, name)) == Location(path, name)
    ensures |ChildPath(path, name)| == (if path == "/" then 0 else |path|) + 1 + |name|
  {
    LastSlash(if path == "/" then "" else path, name);
    assert "" + "/" + name == "/" + name;
  }

  /** A cached listing reports the reply's entries, and at the root one more. */
  lemma {:induction false} ListingReportsReply(path: string, directories: seq<string>, files: seq<FileSize>, e: Entry)
    ensures e in EntriesOf(path, directories, files) <==>
            || (e.isDir && e.size == 0 && e.name in directories)
            || (!e.isDir && FileSize(e.name, e.size) in files)
            || (path == "/" && e == Entry(NEVER_INDEX, false, 0))
  {
    var r := EntriesOf(path, directories, files);
    var all := if path == "/" then files + [FileSize(NEVER_INDEX, 0)] else files;
    assert forall i :: 0 <= i < |directories| ==> r[i] == Entry(directories[i], true, 0);
    assert forall i :: 0 <= i < |all| ==> r[|directories| + i] == Entry(all[i].name, false, all[i].size);
    if e.isDir && e.size == 0 && e.name in directories {
      var i :| 0 <= i < |directories| && directories[i] == e.name;
      assert r[i] == e;
    }
    if !e.isDir && FileSize(e.name, e.size) in all {
      var i :| 0 <= i < |all| && all[i] == FileSize(e.name, e.size);
      assert r[|directories| + i] == e;
    }
  }

  /** Different children of one resource never share a key, as long as names hold no slash. */
  lemma {:induction false} ChildPathInjective(p: string, m: string, q: string, n: string)
    requires p != "" && q != "" && '/' !in m && '/' !in n
    requires ChildPath(p, m) == ChildPath(q, n)
    ensures p == q && m == n
  {
    var s := ChildPath(p, m);
    LastSlash(if p == "/" then "" else p, m);
    LastSlash(if q == "/" then "" else q, n);
    assert "" + "/" + m == "/" + m && "" + "/" + n == "/" + n;
  }

  lemma {:induction false} LastSlash(p: string, n: string)
    requires '/' !in n
    ensures AfterLast(p + "/" + n, '/') == |p| + 1
    ensures (p + "/" + n)[|p| + 1..] == n && (p + "/" + n)[..|p|] == p
  {
    var s := p + "/" + n;
    assert s[|p|] == '/';
    assert forall k :: |p| < k < |s| ==> s[k] == n[k - |p| - 1];
  }

  // ----- the atomic steps, each under the cache locks ------------------------------------------------------

  predicate Live<T>(m: map<Key, Cached<T>>, k: Key, now: nat) {
    k in m && m[k].expires > now
  }

  /** A lookup drops an entry that is no longer live. */
  function Looked<T>(m: map<Key, Cached<T>>, k: Key, now: nat): map<Key, Cached<T>> {
    if k in m && m[k].expires <= now then m - {k} else m
  }

  /** The metadata of the first n entries, inserted in order; the clock is read for each of them. */
  function FillMetas(m: map<Key, Cached<Entry>>, dir: Key, entries: seq<Entry>, times: seq<nat>, n: nat)
    : map<Key, Cached<Entry>>
    requires n <= |entries| < |times|
  {
    if n == 0 then m
    else
      var e := entries[n - 1];
      FillMetas(m, dir, entries, times, n - 1)
        [Key(dir.resource, ChildPath(dir.path, e.name)) := Cached(e, times[n] + CACHE_TTL)]
  }

  /** times[0] is the reading for the listing, times[i + 1] the one for entry i. */
  function FillDir(c: Caches, dir: Key, entries: seq<Entry>, times: seq<nat>): Caches
    requires |entries| < |times|
  {
    Caches(c.dirs[dir := Cached(entries, times[0] + CACHE_TTL)],
           FillMetas(c.metas, dir, entries, times, |entries|))
  }

  function FillMeta(c: Caches, k: Key, e: Entry, now: nat): Caches {
    c.(metas := c.metas[k := Cached(e, now + CACHE_TTL)])
  }

  datatype Step =
    | LookDir(now: nat, key: Key)
    | LookMeta(now: nat, key: Key)
    | StoreDir(key: Key, directories: seq<string>, files: seq<FileSize>, times: seq<nat>)
    | StoreMeta(now: nat, key: Key, entry: Entry)
    | ClearDirs(now: nat)
    | ClearMetas(now: nat)

  /** The listing a StoreDir step caches. */
  function Listing(s: Step): seq<Entry>
    requires s.StoreDir?
  {
    EntriesOf(s.key.path, s.directories, s.files)
  }

  predicate Readings(s: Step) {
    s.StoreDir? ==>
      && |s.times| == |Listing(s)| + 1
      && forall i, j :: 0 <= i < j < |s.times| ==> s.times[i] <= s.times[j]
  }

  function StartOf(s: Step): nat
    requires Readings(s)
  {
    if s.StoreDir? then s.times[0] else s.now
  }

  function EndOf(s: Step): nat
    requires Readings(s)
  {
    if s.StoreDir? then s.times[|s.times| - 1] else s.now
  }

  function Do(c: Caches, s: Step): Caches
    requires Readings(s)
  {
    match s
    case LookDir(now, key) => c.(dirs := Looked(c.dirs, key, now))
    case LookMeta(now, key) => c.(metas := Looked(c.metas, key, now))
    case StoreDir(key, _, _, times) => FillDir(c, key, Listing(s), times)
    case StoreMeta(now, key, entry) => FillMeta(c, key, entry, now)
    case ClearDirs(_) => c.(dirs := map[])
    case ClearMetas(_) => c.(metas := map[])
  }

  /** The first reading with which a step touches the metadata cache. */
  function MetaStart(s: Step): nat
    requires Readings(s)
  {
    if s.StoreDir? && |s.times| > 1 then s.times[1] else StartOf(s)
  }

  predicate TouchesDirs(s: Step) {
    s.LookDir? || s.StoreDir? || s.ClearDirs?
  }

  /** Steps in any interleaving the two locks allow, with a clock that never runs backwards. A listing is
      inserted before the metadata lock is taken, but its own lock is held until all metadata is in: steps
      on listings wait for it, steps on metadata alone may fall between the listing's reading and the first
      of its metadata. */
  predicate Timed(steps: seq<Step>) {
    && (forall i :: 0 <= i < |steps| ==> Readings(steps[i]))
    && (forall i, j :: 0 <= i < j < |steps| ==>
          EndOf(steps[i]) <= if TouchesDirs(steps[i]) then StartOf(steps[j]) else MetaStart(steps[j]))
  }

  function Run(steps: seq<Step>): Caches
    requires forall i :: 0 <= i < |steps| ==> Readings(steps[i])
  {
    if steps == [] then EMPTY else Do(Run(steps[..|steps| - 1]), steps[|steps| - 1])
  }

  // ----- bounded staleness, under any interleaving ------------------------------------------------------------

  /** Step i stored this listing less than the cache time before now. */
  predicate StoredDir(steps: seq<Step>, i: nat, key: Key, data: seq<Entry>, now: nat) {
    && i < |steps| && Readings(steps[i]) && steps[i].StoreDir? && steps[i].key == key
    && Listing(steps[i]) == data && StartOf(steps[i]) <= now < StartOf(steps[i]) + CACHE_TTL
  }

  predicate Recent(stored: nat, now: nat) {
    stored <= now < stored + CACHE_TTL
  }

  /** Entry j of this listing store is the metadata of the key, and its own reading is recent. */
  predicate StoredAsChild(s: Step, j: nat, key: Key, e: Entry, now: nat) {
    && s.StoreDir? && Readings(s) && j < |Listing(s)| && Listing(s)[j] == e
    && key == Key(s.key.resource, ChildPath(s.key.path, e.name)) && Recent(s.times[j + 1], now)
  }

  /** Step i stored this metadata for the key, on its own or as a child of a listing, less than the cache
      time before now. */
  ghost predicate StoredMeta(steps: seq<Step>, i: nat, key: Key, e: Entry, now: nat) {
    && i < |steps|
    && match steps[i]
       case StoreMeta(t, k, entry) => k == key && entry == e && Recent(t, now)
       case _ => exists j :: StoredAsChild(steps[i], j, key, e, now)
  }

  lemma {:induction false} FillMetasFrom(m: map<Key, Cached<Entry>>, dir: Key, entries: seq<Entry>,
                                         times: seq<nat>, n: nat, k: Key)
    requires n <= |entries| < |times|
    ensures var r := FillMetas(m, dir, entries, times, n);
            k in r ==> (k in m && r[k] == m[k]) || exists j :: FilledBy(r[k], dir, entries, times, j, k)
  {
    hide ChildPath;
    if n > 0 {
      FillMetasFrom(m, dir, entries, times, n - 1, k);
      var r := FillMetas(m, dir, entries, times, n);
      if k == Key(dir.resource, ChildPath(dir.path, entries[n - 1].name)) {
        assert FilledBy(r[k], dir, entries, times, n - 1, k);
      }
    }
  }

  /** The record is entry j of the listing with its own reading. */
  predicate FilledBy(c: Cached<Entry>, dir: Key, entries: seq<Entry>, times: seq<nat>, j: nat, k: Key) {
    && j < |entries| < |times| && c == Cached(entries[j], times[j + 1] + CACHE_TTL)
    && k == Key(dir.resource, ChildPath(dir.path, entries[j].name))
  }

  lemma {:induction false} DirProvenance(steps: seq<Step>, k: Key, now: nat) returns (i: nat)
    requires Timed(steps) && Live(Run(steps).dirs, k, now)
    requires steps != [] ==> EndOf(steps[|steps| - 1]) <= now
    ensures StoredDir(steps, i, k, Run(steps).dirs[k].data, now)
  {
    hide FillMetas, EntriesOf;
    var n := |steps| - 1;
    if steps[n].StoreDir? && steps[n].key == k {
      i := n;
    } else {
      i := DirProvenance(steps[..n], k, now);
    }
  }

  lemma {:induction false} MetaProvenance(steps: seq<Step>, k: Key, now: nat) returns (i: nat)
    requires Timed(steps) && Live(Run(steps).metas, k, now)
    requires steps != [] ==> EndOf(steps[|steps| - 1]) <= now
    ensures StoredMeta(steps, i, k, Run(steps).metas[k].data, now)
  {
    hide FillMetas, ChildPath, EntriesOf;
    var n := |steps| - 1;
    var s, before := steps[n], Run(steps[..n]);
    if k in before.metas && Run(steps).metas[k] == before.metas[k] {
      i := MetaProvenance(steps[..n], k, now);
    } else {
      i := n;
      if s.StoreDir? {
        FillMetasFrom(before.metas, s.key, Listing(s), s.times, |Listing(s)|, k);
        var j :| FilledBy(Run(steps).metas[k], s.key, Listing(s), s.times, j, k);
        assert StoredAsChild(s, j, k, Run(steps).metas[k].data, now);
      }
    }
  }

  /** Whatever was interleaved: a listing or a metadata record served from the cache was reported by a
      reply that was stored less than 10 s earlier. */
  lemma {:induction false} BoundedStaleness(steps: seq<Step>, k: Key, now: nat)
    requires Timed(steps) && (steps != [] ==> EndOf(steps[|steps| - 1]) <= now)
    ensures Live(Run(steps).dirs, k, now) ==>
              exists i :: StoredDir(steps, i, k, Run(steps).dirs[k].data, now)
    ensures Live(Run(steps).metas, k, now) ==>
              exists i :: StoredMeta(steps, i, k, Run(steps).metas[k].data, now)
  {
    if Live(Run(steps).dirs, k, now) {
      var i := DirProvenance(steps, k, now);
    }
    if Live(Run(steps).metas, k, now) {
      var i := MetaProvenance(steps, k, now);
    }
  }

  // ----- coherence, over operations that do not overlap ---------------------------------------------------------

  /** The metadata cache agrees with entry e of a listing that expires at the given time. */
  predicate Agrees(metas: map<Key, Cached<Entry>>, dir: Key, e: Entry, expires: nat) {
    var k := Key(dir.resource, ChildPath(dir.path, e.name));
    k in metas && metas[k].data == e && metas[k].expires >= expires
  }

  /** While a listing is live, each of its entries has metadata with the same data and no earlier
      expiry. */
  ghost predicate Coherent(c: Caches, now: nat) {
    forall d :: Live(c.dirs, d, now) ==> forall e :: e in c.dirs[d].data ==> Agrees(c.metas, d, e, c.dirs[d].expires)
  }

  /** The keys and names that make child keys unambiguous. */
  ghost predicate Canonical(c: Caches) {
    forall d :: d in c.dirs ==> d.path != "" && forall e :: e in c.dirs[d].data ==> '/' !in e.name
  }

  /** One name never stands for two different entries. */
  predicate ConsistentNames(entries: seq<Entry>) {
    forall i, j :: 0 <= i < j < |entries| && entries[i].name == entries[j].name ==> entries[i] == entries[j]
  }

  /** A listing is stored under a proper path and with slash-free names. */
  predicate CanonicalStep(s: Step) {
    s.StoreDir? ==> s.key.path != "" && forall e :: e in Listing(s) ==> '/' !in e.name
  }

  /** One whole operation: a clear, or a lookup followed, when it misses and the peer answers, by the
      store. */
  datatype Operation =
    | ReadDirOp(now: nat, key: Key, reply: Option<Step>)
    | MetadataOp(now: nat, key: Key, reply: Option<Step>)
    | ClearOp(now: nat)

  /** The store belongs to the operation. */
  predicate OwnStore(o: Operation) {
    match o
    case ReadDirOp(_, key, Some(s)) => s.StoreDir? && s.key == key && Readings(s)
    case MetadataOp(_, key, Some(s)) => s.StoreMeta? && s.key == key
    case _ => true
  }

  /** The store follows the lookup, and the listing is one a file system can have. */
  predicate ValidOp(o: Operation) {
    && OwnStore(o)
    && match o
       case ReadDirOp(now, key, Some(s)) =>
         && now <= StartOf(s) && key.path != ""
         && ConsistentNames(Listing(s)) && forall e :: e in Listing(s) ==> '/' !in e.name
       case MetadataOp(now, key, Some(s)) => now <= s.now
       case _ => true
  }

  /** Nothing is stored after a hit. */
  function Perform(c: Caches, o: Operation): Caches
    requires OwnStore(o)
  {
    match o
    case ReadDirOp(now, key, reply) =>
      var looked := Do(c, LookDir(now, key));
      if Live(c.dirs, key, now) || reply.None? then looked else Do(looked, reply.value)
    case MetadataOp(now, key, reply) =>
      var looked := Do(c, LookMeta(now, key));
      if Live(c.metas, key, now) || reply.None? then looked else Do(looked, reply.value)
    case ClearOp(now) => Do(Do(c, ClearDirs(now)), ClearMetas(now))
  }

  function OpStart(o: Operation): nat {
    o.now
  }

  function OpEnd(o: Operation): nat
    requires ValidOp(o)
  {
    if o.ClearOp? || o.reply.None? then o.now else EndOf(o.reply.value)
  }

  predicate Sequential(ops: seq<Operation>) {
    && (forall i :: 0 <= i < |ops| ==> ValidOp(ops[i]))
    && (forall i, j :: 0 <= i < j < |ops| ==> OpEnd(ops[i]) <= OpStart(ops[j]))
  }

  function RunOps(ops: seq<Operation>): Caches
    requires forall i :: 0 <= i < |ops| ==> ValidOp(ops[i])
  {
    if ops == [] then EMPTY
    else
      assert ValidOp(ops[|ops| - 1]);
      Perform(RunOps(ops[..|ops| - 1]), ops[|ops| - 1])
  }

  /** The entry of the last name equal to entry i's among the first n is what the metadata holds. */
  lemma {:induction false} FillMetasAgrees(m: map<Key, Cached<Entry>>, dir: Key, entries: seq<Entry>,
                                           times: seq<nat>, n: nat, i: nat)
    requires i < n <= |entries| < |times| && dir.path != ""
    requires forall i, j :: 0 <= i < j < |times| ==> times[i] <= times[j]
    requires ConsistentNames(entries) && forall e :: e in entries ==> '/' !in e.name
    ensures Agrees(FillMetas(m, dir, entries, times, n), dir, entries[i], times[0] + CACHE_TTL)
  {
    hide ChildPath;
    assert entries[i] in entries && entries[n - 1] in entries;
    if i < n - 1 {
      FillMetasAgrees(m, dir, entries, times, n - 1, i);
      if ChildPath(dir.path, entries[i].name) == ChildPath(dir.path, entries[n - 1].name) {
        ChildPathInjective(dir.path, entries[i].name, dir.path, entries[n - 1].name);
      }
    }
  }

  /** Metadata of other directories' children is untouched. */
  lemma {:induction false} FillMetasFrame(m: map<Key, Cached<Entry>>, dir: Key, entries: seq<Entry>,
                                          times: seq<nat>, n: nat, d: Key, e: Entry, expires: nat)
    requires n <= |entries| < |times| && dir.path != "" && d.path != "" && d != dir
    requires '/' !in e.name && forall e :: e in entries ==> '/' !in e.name
    requires Agrees(m, d, e, expires)
    ensures Agrees(FillMetas(m, dir, entries, times, n), d, e, expires)
  {
    hide ChildPath;
    if n > 0 {
      assert entries[n - 1] in entries;
      FillMetasFrame(m, dir, entries, times, n - 1, d, e, expires);
      if ChildPath(d.path, e.name) == ChildPath(dir.path, entries[n - 1].name) {
        ChildPathInjective(d.path, e.name, dir.path, entries[n - 1].name);
      }
    }
  }

  lemma {:induction false} StoreDirCoherent(c: Caches, s: Step, now: nat)
    requires Coherent(c, now) && Canonical(c)
    requires s.StoreDir? && Readings(s) && CanonicalStep(s) && now <= EndOf(s)
    requires s.times[0] + CACHE_TTL <= EndOf(s) || ConsistentNames(Listing(s))
    ensures Coherent(Do(c, s), EndOf(s)) && Canonical(Do(c, s))
  {
    hide ChildPath, EntriesOf, FillMetas, Agrees;
    var t, entries := Do(c, s), Listing(s);
    forall d, e | Live(t.dirs, d, EndOf(s)) && e in t.dirs[d].data
      ensures Agrees(t.metas, d, e, t.dirs[d].expires)
    {
      if d == s.key {
        var i :| 0 <= i < |entries| && entries[i] == e;
        FillMetasAgrees(c.metas, d, entries, s.times, |entries|, i);
      } else {
        assert Live(c.dirs, d, now);
        FillMetasFrame(c.metas, s.key, entries, s.times, |entries|, d, e, c.dirs[d].expires);
      }
    }
  }

  lemma {:induction false} StoreMetaCoherent(c: Caches, s: Step, now: nat)
    requires Coherent(c, now) && s.StoreMeta? && now <= s.now && !Live(c.metas, s.key, now)
    ensures Coherent(Do(c, s), s.now)
  {
  }

  lemma {:induction false} LookCoherent(c: Caches, k: Key, now: nat)
    requires Coherent(c, now) && Canonical(c)
    ensures Coherent(Do(c, LookDir(now, k)), now) && Canonical(Do(c, LookDir(now, k)))
    ensures Coherent(Do(c, LookMeta(now, k)), now) && Canonical(Do(c, LookMeta(now, k)))
  {
    hide ChildPath;
    var t := Do(c, LookMeta(now, k));
    forall d, e | Live(t.dirs, d, now) && e in t.dirs[d].data
      ensures Agrees(t.metas, d, e, t.dirs[d].expires)
    {
      assert Live(c.dirs, d, now);
      assert Agrees(c.metas, d, e, c.dirs[d].expires);
    }
    var u := Do(c, LookDir(now, k));
    forall d, e | Live(u.dirs, d, now) && e in u.dirs[d].data
      ensures Agrees(u.metas, d, e, u.dirs[d].expires)
    {
      assert Live(c.dirs, d, now);
    }
  }

  lemma {:induction false} LaterCoherent(c: Caches, now: nat, later: nat)
    requires Coherent(c, now) && now <= later
    ensures Coherent(c, later)
  {
  }

  lemma {:induction false} PerformCoherent(c: Caches, o: Operation)
    requires Coherent(c, OpStart(o)) && Canonical(c) && ValidOp(o)
    ensures Coherent(Perform(c, o), OpEnd(o)) && Canonical(Perform(c, o))
  {
    hide Coherent, Canonical, Looked, EntriesOf, FillDir, FillMeta;
    match o
    case ClearOp(now) =>
      assert Coherent(EMPTY, now) && Canonical(EMPTY) by {
        EmptyCoherent(now);
      }
      assert Perform(c, o) == EMPTY;
    case ReadDirOp(now, key, reply) =>
      LookCoherent(c, key, now);
      var looked := Do(c, LookDir(now, key));
      if reply.Some? {
        StoreDirCoherent(looked, reply.value, now);
        LaterCoherent(looked, now, EndOf(reply.value));
      }
    case MetadataOp(now, key, reply) =>
      LookCoherent(c, key, now);
      var looked := Do(c, LookMeta(now, key));
      if reply.Some? {
        LaterCoherent(looked, now, EndOf(reply.value));
        if !Live(c.metas, key, now) {
          LookedMisses(c.metas, key, now);
          StoreMetaCoherent(looked, reply.value, now);
          CanonicalStoreMeta(looked, reply.value);
        }
      }
  }

  lemma {:induction false} LookedMisses(m: map<Key, Cached<Entry>>, k: Key, now: nat)
    requires !Live(m, k, now)
    ensures !Live(Looked(m, k, now), k, now)
  {
  }

  lemma {:induction false} CanonicalStoreMeta(c: Caches, s: Step)
    requires Canonical(c) && s.StoreMeta?
    ensures Canonical(Do(c, s))
  {
  }

  lemma {:induction false} EmptyCoherent(now: nat)
    ensures Coherent(EMPTY, now) && Canonical(EMPTY)
  {
  }

  /** In every run of operations that do not overlap, the caches are coherent from the end of the run
      on. */
  lemma {:induction false} CachesStayCoherent(ops: seq<Operation>, now: nat)
    requires Sequential(ops) && (ops != [] ==> OpEnd(ops[|ops| - 1]) <= now)
    ensures Coherent(RunOps(ops), now) && Canonical(RunOps(ops))
  {
    hide Coherent, Canonical, Perform;
    if ops == [] {
      EmptyCoherent(now);
    } else {
      var init, o := ops[..|ops| - 1], ops[|ops| - 1];
      CachesStayCoherent(init, OpStart(o));
      PerformCoherent(RunOps(init), o);
      LaterCoherent(RunOps(ops), OpEnd(o), now);
    }
  }

  /** A stored listing and the metadata stored with it agree exactly when no name stands for two
      different entries. The root's synthetic file makes this fail when the peer lists a file of that
      name with another size. */
  lemma {:induction false} StoredTogetherAgree(c: Caches, s: Step)
    requires s.StoreDir? && Readings(s) && s.key.path != "" && forall e :: e in Listing(s) ==> '/' !in e.name
    ensures ConsistentNames(Listing(s)) <==>
            forall e :: e in Listing(s) ==> Agrees(Do(c, s).metas, s.key, e, s.times[0] + CACHE_TTL)
  {
    hide ChildPath, EntriesOf, FillMetas;
    var entries, metas := Listing(s), Do(c, s).metas;
    if ConsistentNames(entries) {
      forall e | e in entries ensures Agrees(metas, s.key, e, s.times[0] + CACHE_TTL) {
        var i :| 0 <= i < |entries| && entries[i] == e;
        FillMetasAgrees(c.metas, s.key, entries, s.times, |entries|, i);
      }
    } else {
      var i, j :| 0 <= i < j < |entries| && entries[i].name == entries[j].name && entries[i] != entries[j];
      assert entries[i] in entries && entries[j] in entries;
    }
  }

  // ----- coherence step by step, under any interleaving -----------------------------------------------------------

  /** The step agrees with the live listings: metadata that is stored equals the entries of that path in all
      of them, metadata is cleared only when they are all empty, and a listing that is stored and still live
      at the end has consistent names. */
  ghost predicate Safe(c: Caches, s: Step)
    requires Readings(s)
  {
    match s
    case StoreDir(_, _, _, times) => EndOf(s) < times[0] + CACHE_TTL ==> ConsistentNames(Listing(s))
    case StoreMeta(now, key, entry) =>
      forall d :: Live(c.dirs, d, now) ==>
        forall e :: e in c.dirs[d].data && Key(d.resource, ChildPath(d.path, e.name)) == key ==> e == entry
    case ClearMetas(now) => forall d :: Live(c.dirs, d, now) ==> c.dirs[d].data == []
    case _ => true
  }

  /** No listing lives longer than the cache time. */
  ghost predicate Bounded(c: Caches, now: nat) {
    forall d :: d in c.dirs ==> c.dirs[d].expires <= now + CACHE_TTL
  }

  lemma {:induction false} StoreMetaExactly(c: Caches, s: Step, now: nat)
    requires Coherent(c, now) && s.StoreMeta? && now <= s.now && Bounded(c, s.now)
    ensures Coherent(Do(c, s), s.now) <==> Safe(c, s)
  {
    hide ChildPath;
    var t := Do(c, s);
    if Safe(c, s) {
      forall d, e | Live(t.dirs, d, s.now) && e in t.dirs[d].data
        ensures Agrees(t.metas, d, e, t.dirs[d].expires)
      {
        assert Live(c.dirs, d, now);
        assert Agrees(c.metas, d, e, c.dirs[d].expires);
      }
    }
    if Coherent(t, s.now) {
      forall d, e | Live(c.dirs, d, s.now) && e in c.dirs[d].data
                    && Key(d.resource, ChildPath(d.path, e.name)) == s.key
        ensures e == s.entry
      {
        assert Live(t.dirs, d, s.now);
        assert Agrees(t.metas, d, e, t.dirs[d].expires);
      }
    }
  }

  lemma {:induction false} ClearMetasExactly(c: Caches, s: Step)
    requires s.ClearMetas?
    ensures Coherent(Do(c, s), s.now) <==> Safe(c, s)
  {
    hide ChildPath;
    var t := Do(c, s);
    if Coherent(t, s.now) {
      forall d | Live(c.dirs, d, s.now) ensures c.dirs[d].data == [] {
        assert Live(t.dirs, d, s.now);
        SomeEntry(c.dirs[d].data);
      }
    }
  }

  lemma {:induction false} SomeEntry(entries: seq<Entry>)
    ensures entries == [] || exists e :: e in entries
  {
    assert entries == [] || entries[0] in entries;
  }

  lemma {:induction false} StoreDirExactly(c: Caches, s: Step, now: nat)
    requires Coherent(c, now) && Canonical(c)
    requires s.StoreDir? && Readings(s) && CanonicalStep(s) && now <= EndOf(s)
    ensures Coherent(Do(c, s), EndOf(s)) <==> Safe(c, s)
  {
    hide Canonical, Agrees, EntriesOf, FillMetas;
    var t := Do(c, s);
    if Safe(c, s) {
      StoreDirCoherent(c, s, now);
    } else {
      StoredTogetherAgree(c, s);
      assert Live(t.dirs, s.key, EndOf(s)) && t.dirs[s.key].data == Listing(s);
    }
  }

  /** From coherent caches, a step leads to coherent caches if and only if it is safe. */
  lemma {:induction false} StepExactly(c: Caches, s: Step, now: nat)
    requires Coherent(c, now) && Canonical(c) && Readings(s) && CanonicalStep(s)
    requires now <= EndOf(s) && Bounded(c, EndOf(s))
    ensures Coherent(Do(c, s), EndOf(s)) <==> Safe(c, s)
  {
    hide Coherent, Canonical, Safe, Bounded, FillDir, FillMeta, Looked, EntriesOf;
    LaterCoherent(c, now, EndOf(s));
    match s
    case StoreDir(_, _, _, _) => StoreDirExactly(c, s, now);
    case StoreMeta(_, _, _) => StoreMetaExactly(c, s, now);
    case ClearMetas(_) => ClearMetasExactly(c, s);
    case LookDir(_, key) => LookCoherent(c, key, s.now); SafeLook(c, s);
    case LookMeta(_, key) => LookCoherent(c, key, s.now); SafeLook(c, s);
    case ClearDirs(_) => NoListings(c, s);
  }

  lemma {:induction false} SafeLook(c: Caches, s: Step)
    requires s.LookDir? || s.LookMeta?
    ensures Safe(c, s)
  {
  }

  lemma {:induction false} NoListings(c: Caches, s: Step)
    requires s.ClearDirs?
    ensures Coherent(Do(c, s), s.now) && Safe(c, s)
  {
  }

  lemma {:induction false} StepBounds(c: Caches, s: Step, now: nat)
    requires Canonical(c) && Readings(s) && CanonicalStep(s) && Bounded(c, now) && now <= EndOf(s)
    ensures Canonical(Do(c, s)) && Bounded(Do(c, s), EndOf(s))
  {
    hide FillMetas, EntriesOf;
  }

  function TimeAfter(steps: seq<Step>, n: nat): nat
    requires n <= |steps| && forall i :: 0 <= i < |steps| ==> Readings(steps[i])
  {
    if n == 0 then 0 else EndOf(steps[n - 1])
  }

  lemma {:induction false} TimeGoesOn(steps: seq<Step>, n: nat)
    requires Timed(steps) && n < |steps|
    ensures TimeAfter(steps, n) <= EndOf(steps[n])
  {
    if n > 0 {
      assert EndOf(steps[n - 1]) <= if TouchesDirs(steps[n - 1]) then StartOf(steps[n]) else MetaStart(steps[n]);
    }
  }

  lemma {:induction false} RunSnoc(steps: seq<Step>, n: nat)
    requires n < |steps| && forall i :: 0 <= i < |steps| ==> Readings(steps[i])
    ensures Run(steps[..n + 1]) == Do(Run(steps[..n]), steps[n])
  {
    hide Do, Readings;
    assert steps[..n + 1][..n] == steps[..n];
  }

  lemma {:induction false} RunBounds(steps: seq<Step>, n: nat)
    requires Timed(steps) && n <= |steps| && forall i :: 0 <= i < |steps| ==> CanonicalStep(steps[i])
    ensures Canonical(Run(steps[..n])) && Bounded(Run(steps[..n]), TimeAfter(steps, n))
    decreases n
  {
    hide Canonical, Bounded, CanonicalStep, Do;
    if n == 0 {
      EmptyCoherent(0);
      NothingBounded();
      assert steps[..0] == [];
    } else {
      RunBounds(steps, n - 1);
      TimeGoesOn(steps, n - 1);
      RunSnoc(steps, n - 1);
      StepBounds(Run(steps[..n - 1]), steps[n - 1], TimeAfter(steps, n - 1));
    }
  }

  lemma {:induction false} NothingBounded()
    ensures Bounded(EMPTY, 0)
  {
  }

  ghost predicate CoherentUpTo(steps: seq<Step>, n: nat)
    requires n <= |steps| && forall i :: 0 <= i < |steps| ==> Readings(steps[i])
  {
    forall m :: 0 <= m <= n ==> Coherent(Run(steps[..m]), TimeAfter(steps, m))
  }

  ghost predicate SafeUpTo(steps: seq<Step>, n: nat)
    requires n <= |steps| && forall i :: 0 <= i < |steps| ==> Readings(steps[i])
  {
    forall m :: 0 <= m < n ==> Safe(Run(steps[..m]), steps[m])
  }

  lemma {:induction false} OneMoreStep(steps: seq<Step>, n: nat)
    requires 0 < n <= |steps| && forall i :: 0 <= i < |steps| ==> Readings(steps[i])
    ensures CoherentUpTo(steps, n) <==>
            CoherentUpTo(steps, n - 1) && Coherent(Run(steps[..n]), TimeAfter(steps, n))
    ensures CoherentUpTo(steps, n - 1) ==> Coherent(Run(steps[..n - 1]), TimeAfter(steps, n - 1))
    ensures SafeUpTo(steps, n) <==> SafeUpTo(steps, n - 1) && Safe(Run(steps[..n - 1]), steps[n - 1])
  {
    hide Coherent, Safe, Run, Readings, TimeAfter;
  }

  /** Under any interleaving the caches are coherent after every step up to the n-th if and only if each of
      these steps was safe when it was made. */
  lemma {:induction false} CoherentExactly(steps: seq<Step>, n: nat)
    requires Timed(steps) && n <= |steps| && forall i :: 0 <= i < |steps| ==> CanonicalStep(steps[i])
    ensures CoherentUpTo(steps, n) <==> SafeUpTo(steps, n)
    decreases n
  {
    hide Coherent, Safe, Canonical, Bounded, CanonicalStep, CoherentUpTo, SafeUpTo, Run, Do;
    if n == 0 {
      CoherentAtStart(steps);
    } else {
      CoherentExactly(steps, n - 1);
      OneMoreStep(steps, n);
      if CoherentUpTo(steps, n - 1) {
        RunBounds(steps, n - 1);
        TimeGoesOn(steps, n - 1);
        RunSnoc(steps, n - 1);
        LaterBounded(Run(steps[..n - 1]), TimeAfter(steps, n - 1), EndOf(steps[n - 1]));
        StepExactly(Run(steps[..n - 1]), steps[n - 1], TimeAfter(steps, n - 1));
      }
    }
  }

  lemma {:induction false} CoherentAtStart(steps: seq<Step>)
    requires forall i :: 0 <= i < |steps| ==> Readings(steps[i])
    ensures CoherentUpTo(steps, 0) && SafeUpTo(steps, 0)
  {
    EmptyCoherent(0);
    assert steps[..0] == [];
  }

  lemma {:induction false} LaterBounded(c: Caches, now: nat, later: nat)
    requires Bounded(c, now) && now <= later
    ensures Bounded(c, later)
  {
  }

  lemma {:induction false} ConsistentSnoc(entries: seq<Entry>, e: Entry)
    ensures ConsistentNames(entries + [e]) <==>
            ConsistentNames(entries) && forall x :: x in entries && x.name == e.name ==> x == e
  {
    var all := entries + [e];
    assert forall i :: 0 <= i < |entries| ==> all[i] == entries[i];
    if ConsistentNames(all) {
      forall x | x in entries && x.name == e.name ensures x == e {
        var i :| 0 <= i < |entries| && entries[i] == x;
        assert all[i].name == all[|entries|].name;
      }
    } else if ConsistentNames(entries) {
      var i, j :| 0 <= i < j < |all| && all[i].name == all[j].name && all[i] != all[j];
      assert all[i] in entries;
    }
  }

  /** The synthetic root file: a reply for the root keeps consistent names if and only if it has them below
      any other path and lists nothing of that file's name but a file of size 0. */
  lemma {:induction false} RootNames(directories: seq<string>, files: seq<FileSize>, other: string)
    requires other != "/"
    ensures ConsistentNames(EntriesOf("/", directories, files)) <==>
            && ConsistentNames(EntriesOf(other, directories, files))
            && NEVER_INDEX !in directories
            && (forall f :: f in files && f.name == NEVER_INDEX ==> f.size == 0)
  {
    hide ConsistentNames;
    var plain, e := EntriesOf(other, directories, files), Entry(NEVER_INDEX, false, 0);
    assert EntriesOf("/", directories, files) == plain + [e];
    ConsistentSnoc(plain, e);
    forall x ensures x in plain <==>
                     || (x.isDir && x.size == 0 && x.name in directories)
                     || (!x.isDir && FileSize(x.name, x.size) in files)
    {
      ListingReportsReply(other, directories, files, x);
    }
    if NEVER_INDEX in directories {
      assert Entry(NEVER_INDEX, true, 0) in plain;
    }
    forall f | f in files && f.name == NEVER_INDEX ensures Entry(NEVER_INDEX, false, f.size) in plain {
      assert FileSize(NEVER_INDEX, f.size) == f;
    }
  }

  /** The reply that breaks it. */
  lemma {:induction false} SyntheticFileClashes(size: nat)
    requires size > 0
    ensures !ConsistentNames(EntriesOf("/", [], [FileSize(NEVER_INDEX, size)]))
  {
    assert FileSize(NEVER_INDEX, size) in [FileSize(NEVER_INDEX, size)];
    RootNames([], [FileSize(NEVER_INDEX, size)], "/d");
  }

  /** Coherence needs operations that do not overlap: a metadata lookup that misses before a listing is
      stored, and is answered after it with another size, leaves the two caches in disagreement. */
  lemma {:induction false} OverlapBreaksCoherence(resource: string)
    ensures var dir, child := Key(resource, "/d"), Key(resource, "/d/f");
            var steps := [LookMeta(0, child), StoreDir(dir, [], [FileSize("f", 1)], [1, 1]),
                          StoreMeta(2, child, Entry("f", false, 2))];
            Timed(steps) && !Coherent(Run(steps), 2)
  {
    var dir, child := Key(resource, "/d"), Key(resource, "/d/f");
    var a, b, c := LookMeta(0, child), StoreDir(dir, [], [FileSize("f", 1)], [1, 1]),
                   StoreMeta(2, child, Entry("f", false, 2));
    assert Listing(b) == [Entry("f", false, 1)];
    assert [a, b, c][..2] == [a, b] && [a, b][..1] == [a] && [a][..0] == [];
    var before := Run([a, b]);
    assert before == Do(Run([a]), b);
    assert before.dirs[dir] == Cached([Entry("f", false, 1)], 1 + CACHE_TTL);
    var after := Run([a, b, c]);
    assert after == Do(before, c);
    assert ChildPath("/d", "f") == "/d/f";
    assert Live(after.dirs, dir, 2) && Entry("f", false, 1) in after.dirs[dir].data;
    assert !Agrees(after.metas, dir, Entry("f", false, 1), 1 + CACHE_TTL);
  }

  /** A listing stored between the two halves of a clear keeps nobody's metadata: no metadata lookup is
      involved at all. */
  lemma {:induction false} ClearBreaksCoherence(resource: string)
    ensures var steps := [ClearDirs(0), StoreDir(Key(resource, "/d"), [], [FileSize("f", 1)], [1, 1]), ClearMetas(2)];
            Timed(steps) && !CoherentUpTo(steps, 3)
  {
    var dir := Key(resource, "/d");
    var a, b, c := ClearDirs(0), StoreDir(dir, [], [FileSize("f", 1)], [1, 1]), ClearMetas(2);
    var steps := [a, b, c];
    assert Listing(b) == [Entry("f", false, 1)];
    assert steps[..3] == steps && steps[..2] == [a, b] && [a, b][..1] == [a];
    var before := Run([a, b]);
    assert before == Do(Run([a]), b);
    assert before.dirs[dir] == Cached([Entry("f", false, 1)], 1 + CACHE_TTL);
    var after := Run(steps);
    assert after == Do(before, c);
    assert Live(after.dirs, dir, 2) && Entry("f", false, 1) in after.dirs[dir].data;
    assert !Agrees(after.metas, dir, Entry("f", false, 1), 1 + CACHE_TTL);
  }

  // ----- the operations -----------------------------------------------------------------------------------------

  /** What the peer answered to the operation's own request. */
  datatype Reply =
    | EntriesReply(directories: seq<string>, files: seq<FileSize>)
    | MetadataReply(entry: Option<Entry>)
    | NoReply

  datatype ListResult = Listed(entries: seq<Entry>) | NoListing

  datatype MetaResult = Meta(isDir: bool, size: nat) | NoMeta

  function ListOp(resource: string, url: string, now: nat, reply: Reply, times: seq<nat>): Operation {
    var key := Key(resource, SubPath(url));
    ReadDirOp(now, key, if reply.EntriesReply? then Some(StoreDir(key, reply.directories, reply.files, times))
                        else None)
  }

  function MetaOp(resource: string, url: string, now: nat, reply: Reply, stored: nat): (o: Operation)
    ensures OwnStore(o)
  {
    var key := Key(resource, SubPath(url));
    MetadataOp(now, key, if reply.MetadataReply? && reply.entry.Some?
                         then Some(StoreMeta(stored, key, reply.entry.value)) else None)
  }

  datatype AfterList = AfterList(caches: Caches, result: ListResult)

  datatype AfterMeta = AfterMeta(caches: Caches, result: MetaResult)

  /** What a listing call does. */
  function ListStep(c: Caches, resource: string, url: string, now: nat, reply: Reply, times: seq<nat>): AfterList
    requires OwnStore(ListOp(resource, url, now, reply, times))
  {
    var key := Key(resource, SubPath(url));
    if IgnoredJunk(key.path) then AfterList(c, NoListing)
    else
      AfterList(Perform(c, ListOp(resource, url, now, reply, times)),
                if Live(c.dirs, key, now) then Listed(c.dirs[key].data)
                else if reply.EntriesReply? then Listed(EntriesOf(key.path, reply.directories, reply.files))
                else NoListing)
  }

  /** What a metadata call does. */
  function MetaStep(c: Caches, resource: string, url: string, now: nat, reply: Reply, stored: nat): AfterMeta {
    var key := Key(resource, SubPath(url));
    if url == "/" || url == "" then AfterMeta(c, Meta(true, 0))
    else if EndsWith(url, NEVER_INDEX) then AfterMeta(c, Meta(false, 0))
    else if IgnoredJunk(url) then AfterMeta(c, NoMeta)
    else
      AfterMeta(Perform(c, MetaOp(resource, url, now, reply, stored)),
                if Live(c.metas, key, now) then Meta(c.metas[key].data.isDir, c.metas[key].data.size)
                else if reply.MetadataReply? && reply.entry.Some? then
                  Meta(reply.entry.value.isDir, reply.entry.value.size)
                else NoMeta)
  }

  class Bridge {
    var dirs: map<Key, Cached<seq<Entry>>>
    var metas: map<Key, Cached<Entry>>

    constructor ()
      ensures Now() == EMPTY
    {
      dirs, metas := map[], map[];
    }

    function Now(): Caches
      reads this
    {
      Caches(dirs, metas)
    }

    method ClearCaches(ghost now: nat)
      modifies this
      ensures Now() == Perform(old(Now()), ClearOp(now))
    {
      dirs := map[];
      metas := map[];
    }

    /** Serves a live listing without asking; otherwise asks, and stores what the peer lists. */
    method ReadDir(resource: string, url: string, now: nat, reply: Reply, times: seq<nat>) returns (r: ListResult)
      requires OwnStore(ListOp(resource, url, now, reply, times))
      modifies this
      ensures AfterList(Now(), r) == ListStep(old(Now()), resource, url, now, reply, times)
      ensures var key := Key(resource, if url == "" then "/" else url);
              if IgnoredJunk(key.path) then r == NoListing && Now() == old(Now())
              else if key in old(dirs) && old(dirs)[key].expires > now then
                r == Listed(old(dirs)[key].data) && Now() == old(Now())
              else if reply.EntriesReply? then
                && r == Listed(EntriesOf(key.path, reply.directories, reply.files))
                && dirs == old(dirs)[key := Cached(r.entries, times[0] + 10_000_000_000)]
              else r == NoListing && dirs == old(dirs) - {key} && metas == old(metas)
    {
      hide IgnoredJunk, EntriesOf, ChildPath;
      var key := Key(resource, SubPath(url));
      if IgnoredJunk(key.path) {
        return NoListing;
      }
      if key in dirs {
        if dirs[key].expires > now {
          return Listed(dirs[key].data);
        }
        dirs := dirs - {key};
      }
      if !reply.EntriesReply? {
        return NoListing;
      }
      var entries := EntriesOf(key.path, reply.directories, reply.files);
      dirs := dirs[key := Cached(entries, times[0] + CACHE_TTL)];
      for i := 0 to |entries|
        invariant metas == FillMetas(old(metas), key, entries, times, i)
        invariant dirs == Looked(old(dirs), key, now)[key := Cached(entries, times[0] + CACHE_TTL)]
      {
        var child := Key(resource, ChildPath(key.path, entries[i].name));
        metas := metas[child := Cached(entries[i], times[i + 1] + CACHE_TTL)];
      }
      r := Listed(entries);
    }

    /** The root and the synthetic file are answered from nothing; then as for a listing. */
    method Metadata(resource: string, url: string, now: nat, reply: Reply, stored: nat) returns (r: MetaResult)
      modifies this
      ensures AfterMeta(Now(), r) == MetaStep(old(Now()), resource, url, now, reply, stored)
      ensures var key := Key(resource, url);
              if url == "/" || url == "" then r == Meta(true, 0) && Now() == old(Now())
              else if EndsWith(url, ".metadata_never_index") then r == Meta(false, 0) && Now() == old(Now())
              else if IgnoredJunk(url) then r == NoMeta && Now() == old(Now())
              else if key in old(metas) && old(metas)[key].expires > now then
                r == Meta(old(metas)[key].data.isDir, old(metas)[key].data.size) && Now() == old(Now())
              else if reply.MetadataReply? && reply.entry.Some? then
                && r == Meta(reply.entry.value.isDir, reply.entry.value.size) && dirs == old(dirs)
                && metas == old(metas)[key := Cached(reply.entry.value, stored + 10_000_000_000)]
              else r == NoMeta && dirs == old(dirs) && metas == old(metas) - {key}
    {
      hide IgnoredJunk;
      if url == "/" || url == "" {
        return Meta(true, 0);
      }
      if EndsWith(url, NEVER_INDEX) {
        return Meta(false, 0);
      }
      if IgnoredJunk(url) {
        return NoMeta;
      }
      var key := Key(resource, SubPath(url));
      if key in metas {
        if metas[key].expires > now {
          return Meta(metas[key].data.isDir, metas[key].data.size);
        }
        metas := metas - {key};
      }
      if reply.MetadataReply? && reply.entry.Some? {
        var e := reply.entry.value;
        metas := metas[key := Cached(e, stored + CACHE_TTL)];
        return Meta(e.isDir, e.size);
      }
      r := NoMeta;
    }
  }
}
