/** Comparing the files of synchronised folders with a peer's (node-functions/src/sync_folder.rs 33-99).
    A sorted map of folders is modelled as the sequence of its entries in key order. */
module SyncDiff {
  import opened Options

  datatype File = File(path: string, hash: string, size: nat, modified: nat)

  datatype Difference = Identical | Modified | LocalOnly | RemoteOnly

  datatype Item = Item(folder: string, path: string, local: Option<File>, remote: Option<File>, difference: Difference)

  datatype Folder = Folder(name: string, files: seq<File>)

  // ----- one folder ------------------------------------------------------------------------------------

  /** The first file with this path. */
  function FindFile(files: seq<File>, path: string): (r: Option<File>)
    ensures r.Some? ==> r.value in files && r.value.path == path
    ensures r.None? <==> forall f :: f in files ==> f.path != path
  {
    if files == [] then None
    else if files[0].path == path then Some(files[0])
    else FindFile(files[1..], path)
  }

  predicate SameContent(a: File, b: File) {
    a.hash == b.hash && a.size == b.size
  }

  function Classify(local: Option<File>, remote: Option<File>): Difference {
    match (local, remote)
    case (Some(lf), Some(rf)) => if SameContent(lf, rf) then Identical else Modified
    case (None, _) => RemoteOnly
    case (Some(_), None) => LocalOnly
  }

  function RemoteItem(folder: string, local: seq<File>, rf: File): Item {
    var lf := FindFile(local, rf.path);
    Item(folder, rf.path, lf, Some(rf), Classify(lf, Some(rf)))
  }

  function LocalItem(folder: string, lf: File): Item {
    Item(folder, lf.path, Some(lf), None, LocalOnly)
  }

  /** The local files without a remote counterpart, in order. */
  function Unmatched(local: seq<File>, remote: seq<File>): seq<File> {
    if local == [] then []
    else
      var lf := local[|local| - 1];
      Unmatched(local[..|local| - 1], remote) + if FindFile(remote, lf.path).None? then [lf] else []
  }

  function RemoteItems(folder: string, local: seq<File>, remote: seq<File>): (items: seq<Item>)
    ensures |items| == |remote|
    ensures forall i :: 0 <= i < |remote| ==> items[i] == RemoteItem(folder, local, remote[i])
  {
    seq(|remote|, i requires 0 <= i < |remote| => RemoteItem(folder, local, remote[i]))
  }

  function LocalItems(folder: string, files: seq<File>): (items: seq<Item>)
    ensures |items| == |files|
    ensures forall i :: 0 <= i < |files| ==> items[i] == LocalItem(folder, files[i])
  {
    seq(|files|, i requires 0 <= i < |files| => LocalItem(folder, files[i]))
  }

  /** An item for every remote file, in order, then one for every unmatched local file, in order. */
  function FolderItems(folder: string, local: seq<File>, remote: seq<File>): seq<Item> {
    RemoteItems(folder, local, remote) + LocalItems(folder, Unmatched(local, remote))
  }

  /** The first file with the path is the one that is found. */
  lemma {:induction false} FindFileFirst(files: seq<File>, path: string, k: nat)
    requires k < |files| && files[k].path == path && forall j :: 0 <= j < k ==> files[j].path != path
    ensures FindFile(files, path) == Some(files[k])
  {
    if k > 0 {
      FindFileFirst(files[1..], path, k - 1);
    }
  }

  // ----- all folders ----------------------------------------------------------------------------------------

  function FindFolder(folders: seq<Folder>, name: string): Option<seq<File>> {
    if folders == [] then None
    else if folders[0].name == name then Some(folders[0].files)
    else FindFolder(folders[1..], name)
  }

  /** The first folder of the name is the one that is found, and none if there is none. */
  lemma {:induction false} FindFolderFirst(folders: seq<Folder>, name: string)
    ensures (forall f :: f in folders ==> f.name != name) ==> FindFolder(folders, name) == None
    ensures forall k :: IsFirst(folders, k, name) ==> FindFolder(folders, name) == Some(folders[k].files)
  {
    if folders != [] && folders[0].name != name {
      var rest := folders[1..];
      FindFolderFirst(rest, name);
      forall k | IsFirst(folders, k, name) ensures FindFolder(folders, name) == Some(folders[k].files) {
        assert IsFirst(rest, k - 1, name);
      }
    } else if folders != [] {
      assert folders[0] in folders;
    }
  }

  predicate IsFirst(folders: seq<Folder>, k: int, name: string) {
    0 <= k < |folders| && folders[k].name == name && forall j :: 0 <= j < k ==> folders[j].name != name
  }

  /** A folder the peer does not have counts as empty there. */
  function RemoteOf(states: seq<Folder>, name: string): seq<File> {
    match FindFolder(states, name) case None => [] case Some(files) => files
  }

  function Diff(cache: seq<Folder>, states: seq<Folder>): seq<Item> {
    if cache == [] then []
    else
      var f := cache[|cache| - 1];
      Diff(cache[..|cache| - 1], states) + FolderItems(f.name, f.files, RemoteOf(states, f.name))
  }

  method ListRemote(name: string, local: seq<File>, remote: seq<File>) returns (items: seq<Item>)
    ensures items == RemoteItems(name, local, remote)
  {
    hide FindFile;
    items := [];
    for j := 0 to |remote|
      invariant items == RemoteItems(name, local, remote[..j])
    {
      var rf := remote[j];
      var lf := FindFile(local, rf.path);
      if lf.Some? {
        if lf.value.hash != rf.hash || lf.value.size != rf.size {
          items := items + [Item(name, rf.path, lf, Some(rf), Modified)];
        } else {
          items := items + [Item(name, rf.path, lf, Some(rf), Identical)];
        }
      } else {
        items := items + [Item(name, rf.path, None, Some(rf), RemoteOnly)];
      }
    }
    assert remote[..|remote|] == remote;
  }

  method ListUnmatched(name: string, local: seq<File>, remote: seq<File>) returns (items: seq<Item>)
    ensures items == LocalItems(name, Unmatched(local, remote))
  {
    hide FindFile;
    items := [];
    for j := 0 to |local|
      invariant items == LocalItems(name, Unmatched(local[..j], remote))
    {
      assert local[..j + 1][..j] == local[..j];
      if FindFile(remote, local[j].path).None? {
        items := items + [Item(name, local[j].path, Some(local[j]), None, LocalOnly)];
      }
    }
    assert local[..|local|] == local;
  }

  method DiffFolder(name: string, local: seq<File>, remote: Option<seq<File>>) returns (items: seq<Item>)
    ensures items == FolderItems(name, local, match remote case Some(r) => r case None => [])
  {
    hide FindFile, Unmatched;
    if remote.Some? {
      var first := ListRemote(name, local, remote.value);
      var rest := ListUnmatched(name, local, remote.value);
      items := first + rest;
    } else {
      items := [];
      for j := 0 to |local|
        invariant items == LocalItems(name, local[..j])
      {
        items := items + [Item(name, local[j].path, Some(local[j]), None, LocalOnly)];
      }
      assert local[..|local|] == local;
      AllUnmatched(local);
    }
  }

  lemma {:induction false} AllUnmatched(local: seq<File>)
    ensures Unmatched(local, []) == local
  {
    if local != [] {
      AllUnmatched(local[..|local| - 1]);
    }
  }

  method ComputeSyncDiff(cache: seq<Folder>, states: seq<Folder>) returns (diffs: seq<Item>)
    ensures diffs == Diff(cache, states)
  {
    hide FolderItems;
    diffs := [];
    for i := 0 to |cache|
      invariant diffs == Diff(cache[..i], states)
    {
      var items := DiffFolder(cache[i].name, cache[i].files, FindFolder(states, cache[i].name));
      diffs := diffs + items;
      assert cache[..i + 1][..i] == cache[..i];
    }
    assert cache[..|cache|] == cache;
  }

  // ----- what a diff keeps -------------------------------------------------------------------------------------

  function RemoteStates(items: seq<Item>): seq<File> {
    if items == [] then []
    else
      var last := items[|items| - 1];
      RemoteStates(items[..|items| - 1]) + if last.remote.Some? then [last.remote.value] else []
  }

  function LocalStates(items: seq<Item>): seq<File> {
    if items == [] then []
    else
      var last := items[|items| - 1];
      LocalStates(items[..|items| - 1]) + if last.local.Some? then [last.local.value] else []
  }

  predicate DistinctPaths(files: seq<File>) {
    forall i, j :: 0 <= i < j < |files| ==> files[i].path != files[j].path
  }

  predicate DistinctItems(items: seq<Item>) {
    forall i, j :: 0 <= i < j < |items| ==> items[i].path != items[j].path
  }

  /** The remote states of a folder's items are the remote files, in order, whatever the paths. */
  lemma {:induction false} RemoteStatesInOrder(folder: string, local: seq<File>, remote: seq<File>)
    ensures RemoteStates(FolderItems(folder, local, remote)) == remote
  {
    hide Unmatched, FindFile;
    PrefixRemoteStates(FolderItems(folder, local, remote), remote);
  }

  lemma {:induction false} PrefixRemoteStates(items: seq<Item>, files: seq<File>)
    requires |files| <= |items|
    requires forall i :: 0 <= i < |items| ==> items[i].remote == if i < |files| then Some(files[i]) else None
    ensures RemoteStates(items) == files
  {
    if items != [] {
      PrefixRemoteStates(items[..|items| - 1], if |files| == |items| then files[..|files| - 1] else files);
    }
  }

  lemma {:induction false} UnmatchedMembers(local: seq<File>, remote: seq<File>, f: File)
    ensures f in Unmatched(local, remote) <==> f in local && FindFile(remote, f.path).None?
  {
    hide FindFile;
    if local != [] {
      UnmatchedMembers(local[..|local| - 1], remote, f);
      assert local == local[..|local| - 1] + [local[|local| - 1]];
    }
  }

  lemma {:induction false} UnmatchedDistinct(local: seq<File>, remote: seq<File>)
    requires DistinctPaths(local)
    ensures DistinctPaths(Unmatched(local, remote))
  {
    hide FindFile;
    if local != [] {
      var init := local[..|local| - 1];
      UnmatchedDistinct(init, remote);
      forall f | f in Unmatched(init, remote) ensures f.path != local[|local| - 1].path {
        UnmatchedMembers(init, remote, f);
      }
    }
  }

  lemma {:induction false} FindDistinct(files: seq<File>, f: File)
    requires DistinctPaths(files) && f in files
    ensures FindFile(files, f.path) == Some(f)
  {
  }

  /** The one item a folder's diff must hold for a path. */
  predicate Describes(folder: string, local: seq<File>, remote: seq<File>, d: Item) {
    && d.folder == folder && (d.local.Some? || d.remote.Some?)
    && d.local == FindFile(local, d.path) && d.remote == FindFile(remote, d.path)
    && d.difference == Classify(d.local, d.remote)
  }

  /** With distinct paths on each side, a folder's diff is exactly the items of the paths of the union,
      each once. */
  lemma {:induction false} DiffIsExact(folder: string, local: seq<File>, remote: seq<File>)
    requires DistinctPaths(local) && DistinctPaths(remote)
    ensures DistinctItems(FolderItems(folder, local, remote))
    ensures forall d :: d in FolderItems(folder, local, remote) <==> Describes(folder, local, remote, d)
  {
    hide FindFile, Unmatched;
    var items, rest := FolderItems(folder, local, remote), Unmatched(local, remote);
    UnmatchedDistinct(local, remote);
    forall f ensures f in rest <==> f in local && FindFile(remote, f.path).None? {
      UnmatchedMembers(local, remote, f);
    }
    forall f ensures (f in local ==> FindFile(local, f.path) == Some(f))
                  && (f in remote ==> FindFile(remote, f.path) == Some(f)) {
      if f in local { FindDistinct(local, f); }
      if f in remote { FindDistinct(remote, f); }
    }
    forall i | 0 <= i < |items| ensures Describes(folder, local, remote, items[i]) {
      if i < |remote| {
        assert remote[i] in remote;
      } else {
        assert rest[i - |remote|] in rest;
      }
    }
    forall d | Describes(folder, local, remote, d) ensures d in items {
      if d.remote.Some? {
        var i :| 0 <= i < |remote| && remote[i] == d.remote.value;
        assert items[i] == d;
      } else {
        var i :| 0 <= i < |rest| && rest[i] == d.local.value;
        assert items[|remote| + i] == d;
      }
    }
    forall i, j | 0 <= i < j < |items| ensures items[i].path != items[j].path {
      if i < |remote| <= j {
        assert remote[i] in remote && rest[j - |remote|] in rest;
      }
    }
  }

  lemma {:induction false} DistinctCount(files: seq<File>, f: File)
    requires DistinctPaths(files)
    ensures multiset(files)[f] == if f in files then 1 else 0
  {
    if files != [] {
      var init, last := files[..|files| - 1], files[|files| - 1];
      DistinctCount(init, f);
      assert files == init + [last];
    }
  }

  lemma {:induction false} LocalStatesMembers(items: seq<Item>, f: File)
    ensures f in LocalStates(items) <==> exists d :: d in items && d.local == Some(f)
  {
    if items != [] {
      var init, last := items[..|items| - 1], items[|items| - 1];
      LocalStatesMembers(init, f);
      assert items == init + [last];
    }
  }

  lemma {:induction false} LocalStatesDistinct(items: seq<Item>)
    requires DistinctItems(items) && forall d :: d in items && d.local.Some? ==> d.local.value.path == d.path
    ensures DistinctPaths(LocalStates(items))
  {
    if items != [] {
      var init, last := items[..|items| - 1], items[|items| - 1];
      assert items == init + [last];
      LocalStatesDistinct(init);
      forall f | f in LocalStates(init) ensures f.path != last.path {
        LocalStatesMembers(init, f);
      }
    }
  }

  /** The local states are a permutation of the local files: nothing is lost and nothing invented. */
  lemma {:induction false} LocalStatesPermuted(folder: string, local: seq<File>, remote: seq<File>)
    requires DistinctPaths(local) && DistinctPaths(remote)
    ensures multiset(LocalStates(FolderItems(folder, local, remote))) == multiset(local)
  {
    hide FindFile, FolderItems;
    var items := FolderItems(folder, local, remote);
    DiffIsExact(folder, local, remote);
    LocalStatesDistinct(items);
    forall f ensures multiset(LocalStates(items))[f] == multiset(local)[f] {
      DistinctCount(LocalStates(items), f);
      DistinctCount(local, f);
      LocalStatesMembers(items, f);
      if f in local {
        FindDistinct(local, f);
        var rf := FindFile(remote, f.path);
        assert Describes(folder, local, remote, Item(folder, f.path, Some(f), rf, Classify(Some(f), rf)));
      }
    }
  }

  function Swapped(d: Item): Item {
    Item(d.folder, d.path, d.remote, d.local,
         match d.difference case LocalOnly => RemoteOnly case RemoteOnly => LocalOnly case other => other)
  }

  /** Exchanging the two sides exchanges the states and turns local-only into remote-only items. */
  lemma {:induction false} SwapSides(folder: string, local: seq<File>, remote: seq<File>, d: Item)
    requires DistinctPaths(local) && DistinctPaths(remote)
    ensures d in FolderItems(folder, local, remote) <==> Swapped(d) in FolderItems(folder, remote, local)
  {
    hide FindFile, FolderItems;
    DiffIsExact(folder, local, remote);
    DiffIsExact(folder, remote, local);
  }

  /** Path to hash and size. */
  ghost function Contents(files: seq<File>): map<string, (string, nat)>
    requires DistinctPaths(files)
  {
    map p | p in (set f | f in files :: f.path) :: (FindFile(files, p).value.hash, FindFile(files, p).value.size)
  }

  /** A diff shows only identical items exactly when both sides hold the same contents under the same
      paths. */
  lemma {:induction false} AllIdentical(folder: string, local: seq<File>, remote: seq<File>)
    requires DistinctPaths(local) && DistinctPaths(remote)
    ensures (forall d :: d in FolderItems(folder, local, remote) ==> d.difference == Identical)
            <==> Contents(local) == Contents(remote)
  {
    hide FindFile, FolderItems;
    DiffIsExact(folder, local, remote);
    var l, r := Contents(local), Contents(remote);
    if forall d :: d in FolderItems(folder, local, remote) ==> d.difference == Identical {
      forall p ensures p in l <==> p in r
               ensures p in l && p in r ==> l[p] == r[p] {
        var lf, rf := FindFile(local, p), FindFile(remote, p);
        var d := Item(folder, p, lf, rf, Classify(lf, rf));
        assert lf.Some? || rf.Some? ==> Describes(folder, local, remote, d);
        InContents(local, p);
        InContents(remote, p);
      }
    } else {
      var d :| d in FolderItems(folder, local, remote) && d.difference != Identical;
      InContents(local, d.path);
      InContents(remote, d.path);
    }
  }

  lemma {:induction false} InContents(files: seq<File>, p: string)
    requires DistinctPaths(files)
    ensures p in Contents(files) <==> FindFile(files, p).Some?
  {
  }

  /** With distinct folder names on both sides, the diff of a folder both have is exactly the items of the
      union of its paths; the classification is spelled out. */
  lemma {:induction false} WholeDiffIsExact(cache: seq<Folder>, states: seq<Folder>, i: nat, k: nat, d: Item)
    requires i < |cache| && k < |states| && cache[i].name == states[k].name
    requires forall x, y :: 0 <= x < y < |cache| ==> cache[x].name != cache[y].name
    requires forall x, y :: 0 <= x < y < |states| ==> states[x].name != states[y].name
    requires DistinctPaths(cache[i].files) && DistinctPaths(states[k].files)
    ensures d in OfFolder(Diff(cache, states), cache[i].name) <==>
            && d.folder == cache[i].name && (d.local.Some? || d.remote.Some?)
            && (d.local.Some? ==> d.local.value in cache[i].files && d.local.value.path == d.path)
            && (d.local.None? ==> forall f :: f in cache[i].files ==> f.path != d.path)
            && (d.remote.Some? ==> d.remote.value in states[k].files && d.remote.value.path == d.path)
            && (d.remote.None? ==> forall f :: f in states[k].files ==> f.path != d.path)
            && d.difference == (if d.local.None? then RemoteOnly else if d.remote.None? then LocalOnly
                                else if d.local.value.hash == d.remote.value.hash
                                        && d.local.value.size == d.remote.value.size then Identical
                                else Modified)
  {
    hide FindFile, FolderItems, OfFolder, Diff, FindFolder;
    FoldersAreIndependent(cache, states, i);
    FindFolderFirst(states, cache[i].name);
    assert IsFirst(states, k, cache[i].name);
    DiffIsExact(cache[i].name, cache[i].files, states[k].files);
    FoundExactly(cache[i].files, d.path, d.local);
    FoundExactly(states[k].files, d.path, d.remote);
  }

  lemma {:induction false} FoundExactly(files: seq<File>, path: string, r: Option<File>)
    requires DistinctPaths(files)
    ensures r == FindFile(files, path) <==>
            && (r.Some? ==> r.value in files && r.value.path == path)
            && (r.None? ==> forall f :: f in files ==> f.path != path)
  {
    hide FindFile;
    if r.Some? && r.value in files && r.value.path == path {
      FindDistinct(files, r.value);
    }
  }

  // ----- folders on one side only ------------------------------------------------------------------------------

  /** The items of one folder. */
  function OfFolder(items: seq<Item>, name: string): seq<Item> {
    if items == [] then []
    else
      var last := items[|items| - 1];
      OfFolder(items[..|items| - 1], name) + if last.folder == name then [last] else []
  }

  lemma {:induction false} OfFolderConcat(a: seq<Item>, b: seq<Item>, name: string)
    ensures OfFolder(a + b, name) == OfFolder(a, name) + OfFolder(b, name)
  {
    if b == [] {
      assert a + b == a;
    } else {
      OfFolderConcat(a, b[..|b| - 1], name);
      assert (a + b)[..|a + b| - 1] == a + b[..|b| - 1];
    }
  }

  lemma {:induction false} OfOneFolder(items: seq<Item>, folder: string, name: string)
    requires forall d :: d in items ==> d.folder == folder
    ensures OfFolder(items, name) == if folder == name then items else []
  {
    if items != [] {
      var init, last := items[..|items| - 1], items[|items| - 1];
      OfOneFolder(init, folder, name);
      assert items == init + [last];
    }
  }

  /** With distinct folder names, the part of the whole diff that belongs to a folder is that folder's own
      diff, so everything proved of one folder's items holds in the diff of all folders. */
  lemma {:induction false} FoldersAreIndependent(cache: seq<Folder>, states: seq<Folder>, k: nat)
    requires forall i, j :: 0 <= i < j < |cache| ==> cache[i].name != cache[j].name
    requires k < |cache|
    ensures OfFolder(Diff(cache, states), cache[k].name)
         == FolderItems(cache[k].name, cache[k].files, RemoteOf(states, cache[k].name))
  {
    hide RemoteOf, FindFile, Unmatched, OfFolder;
    var name, init, last := cache[k].name, cache[..|cache| - 1], cache[|cache| - 1];
    var items := FolderItems(last.name, last.files, RemoteOf(states, last.name));
    OfFolderConcat(Diff(init, states), items, name);
    OfOneFolder(items, last.name, name);
    if k < |init| {
      FoldersAreIndependent(init, states, k);
    } else {
      NoneOfFolder(init, states, name);
    }
  }

  lemma {:induction false} NoneOfFolder(cache: seq<Folder>, states: seq<Folder>, name: string)
    requires forall f :: f in cache ==> f.name != name
    ensures OfFolder(Diff(cache, states), name) == []
  {
    hide RemoteOf, FindFile, Unmatched, OfFolder;
    if cache == [] {
      OfOneFolder([], name, name);
    } else {
      var init, last := cache[..|cache| - 1], cache[|cache| - 1];
      var items := FolderItems(last.name, last.files, RemoteOf(states, last.name));
      OfFolderConcat(Diff(init, states), items, name);
      OfOneFolder(items, last.name, name);
      NoneOfFolder(init, states, name);
    }
  }

  lemma {:induction false} DiffFolders(cache: seq<Folder>, states: seq<Folder>, d: Item)
    ensures d in Diff(cache, states) ==> exists f :: f in cache && f.name == d.folder
  {
    hide FindFile, FindFolder, Unmatched;
    if cache != [] {
      var init, f := cache[..|cache| - 1], cache[|cache| - 1];
      DiffFolders(init, states, d);
      assert cache == init + [f];
      assert forall x :: x in FolderItems(f.name, f.files, RemoteOf(states, f.name)) ==> x.folder == f.name;
    }
  }

  /** The diff covers a peer's folder exactly when it is known locally or has no files there. */
  lemma {:induction false} RemoteFolderCovered(cache: seq<Folder>, states: seq<Folder>, name: string)
    ensures (exists f :: f in cache && f.name == name) || RemoteOf(states, name) == [] <==>
            forall rf :: rf in RemoteOf(states, name) ==>
              exists d :: d in Diff(cache, states) && d.folder == name && d.remote == Some(rf)
  {
    hide FolderItems, FindFolder;
    var remote := RemoteOf(states, name);
    if f :| f in cache && f.name == name {
      forall rf | rf in remote
        ensures exists d :: d in Diff(cache, states) && d.folder == name && d.remote == Some(rf)
      {
        RemoteListed(cache, states, f, rf);
      }
    } else if remote != [] {
      forall d | d in Diff(cache, states) ensures d.folder != name {
        DiffFolders(cache, states, d);
      }
      assert remote[0] in remote;
    }
  }

  lemma {:induction false} RemoteListed(cache: seq<Folder>, states: seq<Folder>, f: Folder, rf: File)
    requires f in cache && rf in RemoteOf(states, f.name)
    ensures exists d :: d in Diff(cache, states) && d.folder == f.name && d.remote == Some(rf)
  {
    hide FindFolder, FindFile, Unmatched;
    var init, last := cache[..|cache| - 1], cache[|cache| - 1];
    assert cache == init + [last];
    if f == last {
      var remote := RemoteOf(states, f.name);
      var i :| 0 <= i < |remote| && remote[i] == rf;
      assert FolderItems(f.name, f.files, remote)[i] == RemoteItem(f.name, f.files, rf);
      assert RemoteItem(f.name, f.files, rf) in Diff(cache, states);
    } else {
      RemoteListed(init, states, f, rf);
    }
  }
}
