/** Listing the files of a synchronised folder: a walk that does not enter ignored directories
    (node-functions/src/sync_folder.rs 121-209), for trees without links and names without slashes and
    backslashes. */
module SyncScan {
  import opened Text

  datatype Meta = Meta(hash: string, size: nat, modified: nat)

  datatype Node = FileNode(meta: Meta) | DirNode(entries: Entries)

  /** A directory's entries, in the order the file system reports them. */
  datatype Entries = Nil | Cons(name: string, node: Node, rest: Entries)

  datatype Found = Found(path: string, meta: Meta)

  // ----- the ignore patterns -------------------------------------------------------------------------------

  predicate StartsWith(s: string, prefix: string) {
    prefix <= s
  }

  /** A trimmed, non-empty pattern matches a relative path. */
  predicate PatternMatches(p: string, rel: string)
    requires p != ""
  {
    || p in Split(rel, '/')
    || (p[|p| - 1] == '*' && StartsWith(rel, p[..|p| - 1]))
    || (p[0] == '*' && EndsWith(rel, p[1..]))
    || rel == p
  }

  /** What a pattern means: it is one of the components of the path, or the path itself; with a star at the
      end, the path begins with what is before the star; with a star in front, it ends with what is after it. */
  lemma {:induction false} PatternMeaning(p: string, rel: string)
    requires p != ""
    ensures PatternMatches(p, rel) <==>
            || ('/' !in p && exists a, b :: IsComponent(rel, a, p, b))
            || rel == p
            || (exists x: string, u: string :: p == x + "*" && rel == x + u)
            || (exists x: string, u: string :: p == "*" + x && rel == u + x)
  {
    hide Split, StartsWith;
    ComponentExactly(rel, p);
    StarLast(p, rel);
    StarFirst(p, rel);
  }

  lemma {:induction false} StarLast(p: string, rel: string)
    requires p != ""
    ensures p[|p| - 1] == '*' && StartsWith(rel, p[..|p| - 1]) <==>
            exists x: string, u: string :: p == x + "*" && rel == x + u
  {
    if p[|p| - 1] == '*' && StartsWith(rel, p[..|p| - 1]) {
      var x := p[..|p| - 1];
      assert p == x + "*" && rel == x + rel[|x|..];
    }
    if x: string, u: string :| p == x + "*" && rel == x + u {
      assert p[..|p| - 1] == x;
    }
  }

  lemma {:induction false} StarFirst(p: string, rel: string)
    requires p != ""
    ensures p[0] == '*' && EndsWith(rel, p[1..]) <==> exists x: string, u: string :: p == "*" + x && rel == u + x
  {
    if p[0] == '*' && EndsWith(rel, p[1..]) {
      var x := p[1..];
      assert p == "*" + x && rel == rel[..|rel| - |x|] + x;
    }
    if x: string, u: string :| p == "*" + x && rel == u + x {
      assert p[1..] == x;
    }
  }

  /** part stands between slashes, or between them and the ends, after a and before b. */
  predicate IsComponent(rel: string, a: string, part: string, b: string) {
    rel == a + part + b && (a != "" ==> a[|a| - 1] == '/') && (b != "" ==> b[0] == '/')
  }

  lemma {:induction false} ComponentExactly(rel: string, part: string)
    ensures part in Split(rel, '/') <==> '/' !in part && exists a, b :: IsComponent(rel, a, part, b)
  {
    if part in Split(rel, '/') {
      var a, b := ComponentAround(rel, part);
    }
    forall a, b | '/' !in part && IsComponent(rel, a, part, b) ensures part in Split(rel, '/') {
      ComponentIsPart(rel, a, part, b);
    }
  }

  lemma {:induction false} ComponentAround(rel: string, part: string) returns (a: string, b: string)
    requires part in Split(rel, '/')
    ensures IsComponent(rel, a, part, b)
    decreases |rel|
  {
    hide IsComponent, Split;
    var i := IndexOf(rel, '/');
    var head := rel[..i];
    FirstComponent(rel);
    a, b := "", rel[i..];
    if i == |rel| {
      SplitWhole(rel, '/');
      assert head == rel;
    } else {
      var rest := rel[i + 1..];
      assert rel == head + "/" + rest;
      SplitStep(head, '/', rest);
      if part != head {
        var c;
        c, b := ComponentAround(rest, part);
        a := head + "/" + c;
        LaterComponent(head, rest, c, part, b);
      }
    }
  }

  lemma {:induction false} FirstComponent(rel: string)
    ensures IsComponent(rel, "", rel[..IndexOf(rel, '/')], rel[IndexOf(rel, '/')..])
  {
    var i := IndexOf(rel, '/');
    assert rel == "" + rel[..i] + rel[i..];
  }

  lemma {:induction false} LaterComponent(head: string, rest: string, c: string, part: string, b: string)
    requires IsComponent(rest, c, part, b)
    ensures IsComponent(head + "/" + rest, head + "/" + c, part, b)
  {
    var a := head + "/" + c;
    assert head + "/" + (c + part + b) == a + part + b;
    assert a[|a| - 1] == if c == "" then '/' else c[|c| - 1];
  }

  lemma {:induction false} ComponentIsPart(rel: string, a: string, part: string, b: string)
    requires '/' !in part && IsComponent(rel, a, part, b)
    ensures part in Split(rel, '/')
  {
    hide Split;
    SplitWhole(part, '/');
    var tail := part + b;
    if b != "" {
      assert tail == part + "/" + b[1..];
      SplitConcat(part, '/', b[1..]);
    } else {
      assert tail == part;
    }
    if a != "" {
      assert rel == a[..|a| - 1] + "/" + tail;
      SplitConcat(a[..|a| - 1], '/', tail);
    } else {
      assert rel == tail;
    }
  }

  predicate Matches(pattern: string, rel: string) {
    Trim(pattern) != "" && PatternMatches(Trim(pattern), rel)
  }

  predicate Ignored(rel: string, ignores: seq<string>) {
    exists k :: 0 <= k < |ignores| && Matches(ignores[k], rel)
  }

  /** The walker's filter: the root always passes. */
  method KeepEntry(rel: string, ignores: seq<string>) returns (keep: bool)
    ensures keep <==> rel == "" || !Ignored(rel, ignores)
  {
    if rel == "" {
      return true;
    }
    var parts := Split(rel, '/');
    for i := 0 to |ignores|
      invariant forall k :: 0 <= k < i ==> !Matches(ignores[k], rel)
    {
      var ignore := Trim(ignores[i]);
      if ignore != "" {
        if ignore in parts {
          return false;
        }
        if ignore[|ignore| - 1] == '*' && StartsWith(rel, ignore[..|ignore| - 1]) {
          return false;
        }
        if ignore[0] == '*' && EndsWith(rel, ignore[1..]) {
          return false;
        }
        if rel == ignore {
          return false;
        }
      }
    }
    keep := true;
  }

  // ----- the pruned walk ----------------------------------------------------------------------------------------

  function ChildRel(rel: string, name: string): string {
    if rel == "" then name else rel + "/" + name
  }

  /** The files below a directory, leaving out ignored entries and everything under them. */
  function Walk(rel: string, entries: Entries, ignores: seq<string>): seq<Found>
    decreases entries
  {
    match entries
    case Nil => []
    case Cons(name, node, rest) =>
      WalkNode(ChildRel(rel, name), node, ignores) + Walk(rel, rest, ignores)
  }

  function WalkNode(rel: string, node: Node, ignores: seq<string>): seq<Found>
    decreases node
  {
    if rel != "" && Ignored(rel, ignores) then []
    else
      match node
      case FileNode(meta) => [Found(rel, meta)]
      case DirNode(entries) => Walk(rel, entries, ignores)
  }

  /** Directories still to be read, the innermost last. */
  datatype Frame = Frame(rel: string, entries: Entries)

  function WalkFrames(stack: seq<Frame>, ignores: seq<string>): seq<Found> {
    if stack == [] then []
    else
      var top := stack[|stack| - 1];
      Walk(top.rel, top.entries, ignores) + WalkFrames(stack[..|stack| - 1], ignores)
  }

  function Size(entries: Entries): nat {
    match entries
    case Nil => 0
    case Cons(_, FileNode(_), rest) => 1 + Size(rest)
    case Cons(_, DirNode(inner), rest) => 2 + Size(inner) + Size(rest)
  }

  function Work(stack: seq<Frame>): nat {
    if stack == [] then 0 else 1 + Size(stack[|stack| - 1].entries) + Work(stack[..|stack| - 1])
  }

  /** Reads the tree with an explicit stack and lists each kept file as it is met. */
  method ScanFolder(root: Entries, ignores: seq<string>) returns (files: seq<Found>)
    ensures files == Walk("", root, ignores)
  {
    hide WalkFrames, Work, Ignored;
    var stack: seq<Frame> := [];
    EmptyFrames(ignores);
    FramesPush(stack, Frame("", root), ignores);
    stack := stack + [Frame("", root)];
    files := [];
    while stack != []
      invariant files + WalkFrames(stack, ignores) == Walk("", root, ignores)
      decreases Work(stack)
    {
      var top, below := stack[|stack| - 1], stack[..|stack| - 1];
      assert stack == below + [top];
      FramesPush(below, top, ignores);
      stack := below;
      if top.entries.Cons? {
        var Cons(name, node, rest) := top.entries;
        var rel := ChildRel(top.rel, name);
        var keep := KeepEntry(rel, ignores);
        FramesPush(below, Frame(top.rel, rest), ignores);
        stack := below + [Frame(top.rel, rest)];
        FrameStep(files, WalkNode(rel, node, ignores), Walk(top.rel, rest, ignores), WalkFrames(below, ignores));
        if keep {
          match node {
            case FileNode(meta) =>
              files := files + [Found(rel, meta)];
            case DirNode(inner) =>
              FramesPush(stack, Frame(rel, inner), ignores);
              FrameStep(files, [], Walk(rel, inner, ignores), WalkFrames(stack, ignores));
              stack := stack + [Frame(rel, inner)];
          }
        }
      }
    }
  }

  lemma {:induction false} FrameStep(files: seq<Found>, a: seq<Found>, b: seq<Found>, c: seq<Found>)
    ensures files + (a + b + c) == files + a + (b + c)
    ensures files + [] + (b + c) == files + (b + c) == files + b + c
  {
  }

  lemma {:induction false} FramesPush(stack: seq<Frame>, f: Frame, ignores: seq<string>)
    ensures WalkFrames(stack + [f], ignores) == Walk(f.rel, f.entries, ignores) + WalkFrames(stack, ignores)
    ensures Work(stack + [f]) == 1 + Size(f.entries) + Work(stack)
  {
  }

  lemma {:induction false} EmptyFrames(ignores: seq<string>)
    ensures WalkFrames([], ignores) == []
  {
  }

  // ----- the flat specification ------------------------------------------------------------------------------------

  /** Every file of the tree. */
  function All(rel: string, entries: Entries): seq<Found>
    decreases entries
  {
    match entries
    case Nil => []
    case Cons(name, node, rest) => AllNode(ChildRel(rel, name), node) + All(rel, rest)
  }

  function AllNode(rel: string, node: Node): seq<Found>
    decreases node
  {
    match node
    case FileNode(meta) => [Found(rel, meta)]
    case DirNode(entries) => All(rel, entries)
  }

  /** path[..i] is the path itself or one of its ancestor directories below the root. */
  predicate IsAncestorEnd(path: string, i: nat) {
    0 < i <= |path| && (i == |path| || path[i] == '/')
  }

  /** No ancestor of at least n characters, nor the path itself, is ignored. */
  predicate KeptFrom(path: string, n: nat, ignores: seq<string>) {
    forall i :: n <= i <= |path| && IsAncestorEnd(path, i) ==> !Ignored(path[..i], ignores)
  }

  predicate Kept(path: string, ignores: seq<string>) {
    KeptFrom(path, 0, ignores)
  }

  function FilterKept(files: seq<Found>, n: nat, ignores: seq<string>): seq<Found> {
    if files == [] then []
    else (if KeptFrom(files[0].path, n, ignores) then [files[0]] else []) + FilterKept(files[1..], n, ignores)
  }

  predicate ValidNames(entries: Entries) {
    match entries
    case Nil => true
    case Cons(name, node, rest) =>
      name != "" && '/' !in name && (node.DirNode? ==> ValidNames(node.entries)) && ValidNames(rest)
  }

  /** path lies at or under the directory rel. */
  predicate Under(path: string, rel: string) {
    rel <= path && (rel == "" || IsAncestorEnd(path, |rel|))
  }

  lemma {:induction false} FilterConcat(a: seq<Found>, b: seq<Found>, n: nat, ignores: seq<string>)
    ensures FilterKept(a + b, n, ignores) == FilterKept(a, n, ignores) + FilterKept(b, n, ignores)
  {
    hide KeptFrom;
    if a == [] {
      assert a + b == b;
    } else {
      assert (a + b)[1..] == a[1..] + b && (a + b)[0] == a[0];
      FilterConcat(a[1..], b, n, ignores);
      var head := if KeptFrom(a[0].path, n, ignores) then [a[0]] else [];
      assert head + (FilterKept(a[1..], n, ignores) + FilterKept(b, n, ignores))
          == head + FilterKept(a[1..], n, ignores) + FilterKept(b, n, ignores);
    }
  }

  lemma {:induction false} FilterSame(files: seq<Found>, m: nat, n: nat, ignores: seq<string>)
    requires forall f :: f in files ==> (KeptFrom(f.path, m, ignores) <==> KeptFrom(f.path, n, ignores))
    ensures FilterKept(files, m, ignores) == FilterKept(files, n, ignores)
  {
    hide KeptFrom;
    if files != [] {
      FilterSame(files[1..], m, n, ignores);
    }
  }

  lemma {:induction false} FilterNone(files: seq<Found>, n: nat, ignores: seq<string>)
    requires forall f :: f in files ==> !KeptFrom(f.path, n, ignores)
    ensures FilterKept(files, n, ignores) == []
  {
    hide KeptFrom;
    if files != [] {
      FilterNone(files[1..], n, ignores);
    }
  }

  lemma {:induction false} UnderChild(path: string, rel: string, name: string)
    requires Under(path, ChildRel(rel, name)) && name != ""
    ensures Under(path, rel)
  {
  }

  lemma {:induction false} AllUnder(rel: string, entries: Entries)
    requires ValidNames(entries)
    ensures forall f :: f in All(rel, entries) ==> Under(f.path, rel)
    decreases entries, 1
  {
    hide Under, ChildRel;
    match entries
    case Nil =>
    case Cons(name, node, rest) =>
      AllUnder(rel, rest);
      NodeUnder(ChildRel(rel, name), node);
      ChildNotEmpty(rel, name);
      forall f | f in AllNode(ChildRel(rel, name), node) ensures Under(f.path, rel) {
        UnderChild(f.path, rel, name);
      }
  }

  lemma {:induction false} ChildNotEmpty(rel: string, name: string)
    ensures name != "" ==> ChildRel(rel, name) != ""
  {
  }

  lemma {:induction false} NodeUnder(rel: string, node: Node)
    requires node.DirNode? ==> ValidNames(node.entries)
    ensures rel != "" ==> forall f :: f in AllNode(rel, node) ==> Under(f.path, rel)
    decreases node, 0
  {
    match node
    case FileNode(_) =>
    case DirNode(entries) => AllUnder(rel, entries);
  }

  /** Between a directory and its child there is no further ancestor. */
  lemma {:induction false} ChildKept(path: string, rel: string, name: string, ignores: seq<string>)
    requires Under(path, ChildRel(rel, name)) && name != "" && '/' !in name
    requires rel == "" || !Ignored(rel, ignores)
    ensures KeptFrom(path, |rel|, ignores) <==> KeptFrom(path, |ChildRel(rel, name)|, ignores)
  {
    hide Ignored;
    var child := ChildRel(rel, name);
    assert path[..|rel|] == rel;
    assert forall i :: 0 <= i < |child| ==> path[i] == child[i];
  }

  lemma {:induction false} WalkIsFilter(rel: string, entries: Entries, ignores: seq<string>)
    requires ValidNames(entries) && (rel == "" || !Ignored(rel, ignores))
    ensures Walk(rel, entries, ignores) == FilterKept(All(rel, entries), |rel|, ignores)
    decreases entries, 1
  {
    hide Ignored, KeptFrom, ChildRel, Under;
    match entries
    case Nil =>
    case Cons(name, node, rest) =>
      var child := ChildRel(rel, name);
      var files := AllNode(child, node);
      ChildNotEmpty(rel, name);
      NodeIsFilter(child, node, ignores);
      NodeUnder(child, node);
      forall f | f in files
        ensures KeptFrom(f.path, |rel|, ignores) <==> KeptFrom(f.path, |child|, ignores)
      {
        ChildKept(f.path, rel, name, ignores);
      }
      FilterSame(files, |rel|, |child|, ignores);
      FilterConcat(files, All(rel, rest), |rel|, ignores);
      WalkIsFilter(rel, rest, ignores);
  }

  lemma {:induction false} NodeIsFilter(rel: string, node: Node, ignores: seq<string>)
    requires rel != "" && (node.DirNode? ==> ValidNames(node.entries))
    ensures WalkNode(rel, node, ignores) == FilterKept(AllNode(rel, node), |rel|, ignores)
    decreases node, 0
  {
    hide Ignored;
    if Ignored(rel, ignores) {
      NodeUnder(rel, node);
      forall f | f in AllNode(rel, node) ensures !KeptFrom(f.path, |rel|, ignores) {
        assert IsAncestorEnd(f.path, |rel|) && f.path[..|rel|] == rel;
      }
      FilterNone(AllNode(rel, node), |rel|, ignores);
    } else {
      match node
      case FileNode(meta) =>
        assert rel[..|rel|] == rel;
        assert [Found(rel, meta)][1..] == [];
      case DirNode(entries) => WalkIsFilter(rel, entries, ignores);
    }
  }

  /** The pruned walk lists, in order, exactly the files for which neither the relative path nor any
      ancestor directory below the root matches an ignore pattern. */
  lemma {:induction false} ScanMeetsSpecification(root: Entries, ignores: seq<string>)
    requires ValidNames(root)
    ensures Walk("", root, ignores) == FilterKept(All("", root), 0, ignores)
  {
    WalkIsFilter("", root, ignores);
  }

  // ----- when the file's own path is enough --------------------------------------------------------------------------

  /** A trimmed pattern that never ignores a directory without ignoring all paths under it. */
  predicate Hereditary(p: string) {
    || p == "" || p == "*"
    || (p[0] != '*' && ('/' !in p || p[|p| - 1] == '*'))
  }

  lemma {:induction false} PatternInherited(p: string, path: string, i: nat)
    requires p != "" && Hereditary(p) && i < |path| && path[i] == '/'
    requires PatternMatches(p, path[..i])
    ensures PatternMatches(p, path)
  {
    hide Split;
    var dir, rest := path[..i], path[i + 1..];
    assert path == dir + "/" + rest;
    SplitConcat(dir, '/', rest);
    if '/' !in p {
      SplitWhole(p, '/');
    }
    assert p[..|p| - 1] <= dir ==> p[..|p| - 1] <= path;
  }

  lemma {:induction false} IgnoredInherited(path: string, i: nat, ignores: seq<string>)
    requires i < |path| && path[i] == '/' && forall p :: p in ignores ==> Hereditary(Trim(p))
    ensures Ignored(path[..i], ignores) ==> Ignored(path, ignores)
  {
    hide Trim, Hereditary, PatternMatches;
    if Ignored(path[..i], ignores) {
      var k :| 0 <= k < |ignores| && Matches(ignores[k], path[..i]);
      PatternInherited(Trim(ignores[k]), path, i);
      assert Matches(ignores[k], path);
    }
  }

  /** With hereditary patterns only, testing each file's own path gives the same list. */
  lemma {:induction false} OwnPathSuffices(path: string, ignores: seq<string>)
    requires path != "" && forall p :: p in ignores ==> Hereditary(Trim(p))
    ensures Kept(path, ignores) <==> !Ignored(path, ignores)
  {
    hide Trim, Hereditary, Ignored;
    assert path[..|path|] == path && IsAncestorEnd(path, |path|);
    forall i: nat | i < |path| && path[i] == '/' ensures Ignored(path[..i], ignores) ==> Ignored(path, ignores) {
      IgnoredInherited(path, i, ignores);
    }
  }

  // ----- the paths of real trees ----------------------------------------------------------------------------------

  predicate RealChar(c: char) {
    c != '/' && c != '\\' && c != '\0'
  }

  /** A name an entry of a directory can have. */
  predicate RealName(name: string) {
    name != "" && name != "." && name != ".." && forall i :: 0 <= i < |name| ==> RealChar(name[i])
  }

  predicate RealPath(path: string) {
    forall n :: n in Split(path, '/') ==> RealName(n)
  }

  predicate RealTree(entries: Entries) {
    match entries
    case Nil => true
    case Cons(name, node, rest) =>
      RealName(name) && (node.DirNode? ==> RealTree(node.entries)) && RealTree(rest)
  }

  lemma {:induction false} RealIsValid(entries: Entries)
    requires RealTree(entries)
    ensures ValidNames(entries)
  {
    match entries
    case Nil =>
    case Cons(name, node, rest) =>
      RealIsValid(rest);
      if node.DirNode? {
        RealIsValid(node.entries);
      }
  }

  lemma {:induction false} RealConcat(x: string, y: string)
    ensures RealPath(x + "/" + y) <==> RealPath(x) && RealPath(y)
  {
    SplitConcat(x, '/', y);
  }

  lemma {:induction false} RealSingle(name: string)
    requires '/' !in name
    ensures RealPath(name) <==> RealName(name)
  {
    SplitWhole(name, '/');
    assert name in [name];
  }

  /** What lies at and above a real path is real. */
  lemma {:induction false} RealAncestor(path: string, i: nat)
    requires RealPath(path) && IsAncestorEnd(path, i)
    ensures RealPath(path[..i])
  {
    if i < |path| {
      assert path == path[..i] + "/" + path[i + 1..];
      RealConcat(path[..i], path[i + 1..]);
    } else {
      assert path[..i] == path;
    }
  }

  lemma {:induction false} RealChars(path: string)
    requires RealPath(path)
    ensures forall i :: 0 <= i < |path| && path[i] != '/' ==> RealChar(path[i])
    decreases |path|
  {
    var i := IndexOf(path, '/');
    var head := path[..i];
    if i < |path| {
      var rest := path[i + 1..];
      assert path == head + "/" + rest;
      RealConcat(head, rest);
      RealChars(rest);
      RealSingle(head);
      forall k | 0 <= k < |path| && path[k] != '/' ensures RealChar(path[k]) {
        if k < i {
          assert path[k] == head[k];
        } else {
          assert path[k] == rest[k - i - 1];
        }
      }
    } else {
      assert head == path;
      RealSingle(path);
    }
  }

  /** Every file of a real tree has a real path. */
  lemma {:induction false} FilesAreReal(rel: string, entries: Entries)
    requires RealTree(entries) && (rel == "" || RealPath(rel))
    ensures forall f :: f in All(rel, entries) ==> RealPath(f.path)
    decreases entries
  {
    hide RealPath, RealName;
    match entries
    case Nil =>
    case Cons(name, node, rest) =>
      FilesAreReal(rel, rest);
      RealChild(rel, name);
      if node.DirNode? {
        FilesAreReal(ChildRel(rel, name), node.entries);
      }
  }

  lemma {:induction false} RealChild(rel: string, name: string)
    requires RealName(name) && (rel == "" || RealPath(rel))
    ensures RealPath(ChildRel(rel, name))
  {
    hide RealPath;
    RealSingle(name);
    RealConcat(rel, name);
  }

  /** The tree with a single file, at the end of these names. */
  function PathTree(names: seq<string>, meta: Meta): Entries
    requires names != []
  {
    if |names| == 1 then Cons(names[0], FileNode(meta), Nil)
    else Cons(names[0], DirNode(PathTree(names[1..], meta)), Nil)
  }

  lemma {:induction false} PathTreeFile(rel: string, names: seq<string>, meta: Meta)
    requires names != [] && forall n :: n in names ==> RealName(n)
    ensures RealTree(PathTree(names, meta))
    ensures All(rel, PathTree(names, meta)) == [Found(ChildRel(rel, Join(names, '/')), meta)]
    decreases |names|
  {
    hide RealName;
    if |names| > 1 {
      var child, rest := ChildRel(rel, names[0]), names[1..];
      PathTreeFile(child, rest, meta);
      assert All(rel, PathTree(names, meta)) == All(child, PathTree(rest, meta)) + [];
      assert child != "" by {
        ChildNotEmpty(rel, names[0]);
        RealNotEmpty(names[0]);
      }
      assert rel + "/" + (names[0] + "/" + Join(rest, '/')) == rel + "/" + names[0] + "/" + Join(rest, '/');
    }
  }

  lemma {:induction false} RealNotEmpty(name: string)
    requires RealName(name)
    ensures name != ""
  {
  }

  // ----- the patterns for which the own path decides ------------------------------------------------------------

  /** A directory a pattern that is not hereditary ignores, if any directory at all. */
  function IgnoredDir(p: string): string {
    if p != "" && p[0] == '*' then "a" + p[1..] else p
  }

  /** A trimmed pattern that ignores no directory of any tree without ignoring all paths under it. */
  predicate Harmless(p: string) {
    Hereditary(p) || !RealPath(IgnoredDir(p))
  }

  predicate RealText(s: string) {
    forall i :: 0 <= i < |s| ==> RealChar(s[i])
  }

  /** Inside real paths, text without slashes is the text of names. */
  lemma {:induction false} RealInside(x: string, y: string, z: string)
    requires RealPath(x + y + z) && '/' !in y
    ensures RealText(y)
  {
    hide RealPath;
    RealChars(x + y + z);
    forall i | 0 <= i < |y| ensures RealChar(y[i]) {
      assert (x + y + z)[|x| + i] == y[i];
    }
  }

  lemma {:induction false} RealWithLetter(y: string)
    requires RealText(y)
    ensures RealPath("a" + y) && RealPath(y + "*") && RealPath("a" + (y + "*"))
  {
    hide RealPath;
    forall name | name == "a" + y || name == y + "*" || name == "a" + (y + "*") ensures RealName(name) && '/' !in name {
      RealLetters(y, name);
    }
    RealSingle("a" + y);
    RealSingle(y + "*");
    RealSingle("a" + (y + "*"));
  }

  lemma {:induction false} RealLetters(y: string, name: string)
    requires RealText(y) && (name == "a" + y || name == y + "*" || name == "a" + (y + "*"))
    ensures RealName(name) && '/' !in name
  {
    assert name[0] == 'a' || name[|name| - 1] == '*';
    forall i | 0 <= i < |name| ensures RealChar(name[i]) {
      assert name[i] == 'a' || name[i] == '*' || (i < |y| && name[i] == y[i]) || (0 < i <= |y| && name[i] == y[i - 1]);
    }
  }

  /** The rest of a real path, with another beginning of its first name. */
  lemma {:induction false} RealSuffix(t: string, s: string)
    requires RealPath(t + s)
    ensures RealPath("a" + s)
  {
    hide RealPath;
    var i := IndexOf(s, '/');
    var head, rest := s[..i], s[i..];
    assert t + s == t + head + rest;
    RealInside(t, head, rest);
    RealWithLetter(head);
    if i < |s| {
      assert t + s == (t + head) + "/" + s[i + 1..] && "a" + s == ("a" + head) + "/" + s[i + 1..];
      RealConcat(t + head, s[i + 1..]);
      RealConcat("a" + head, s[i + 1..]);
    } else {
      assert head == s;
    }
  }

  /** The beginning of a real path, with another end of its last name. */
  lemma {:induction false} RealPrefix(m: string, u: string)
    requires RealPath("*" + m + u)
    ensures RealPath("a" + (m + "*"))
  {
    hide RealPath;
    var i := AfterLast(m, '/');
    var last := m[i..];
    assert "*" + m + u == ("*" + m[..i]) + last + u;
    RealInside("*" + m[..i], last, u);
    RealWithLetter(last);
    if i > 0 {
      var head := m[..i - 1];
      assert "*" + m + u == ("*" + head) + "/" + (last + u);
      RealConcat("*" + head, last + u);
      RealSuffix("*", head);
      RealConcat("a" + head, last + "*");
      assert "a" + (m + "*") == ("a" + head) + "/" + (last + "*");
    } else {
      assert last == m;
    }
  }

  /** Only real directories are matched: a pattern with another one to ignore matches no path of any tree. */
  lemma {:induction false} MatchedIsReal(p: string, rel: string)
    requires p != "" && !Hereditary(p) && RealPath(rel) && PatternMatches(p, rel)
    ensures RealPath(IgnoredDir(p))
  {
    hide Split, RealName;
    if p in Split(rel, '/') {
      assert RealName(p);
      RealSingle(p);
    }
    if p[0] == '*' {
      var s := p[1..];
      assert p == "*" + s;
      if p in Split(rel, '/') {
        RealSuffix("*", s);
      } else if EndsWith(rel, s) {
        assert rel == rel[..|rel| - |s|] + s;
        RealSuffix(rel[..|rel| - |s|], s);
      } else {
        var m := s[..|s| - 1];
        assert p[..|p| - 1] == "*" + m && s == m + "*";
        assert rel == "*" + m + rel[|p| - 1..];
        RealPrefix(m, rel[|p| - 1..]);
      }
    }
  }

  /** With harmless patterns only, testing the own path of each file of a tree is enough. */
  lemma {:induction false} HarmlessSuffices(path: string, ignores: seq<string>)
    requires path != "" && RealPath(path) && forall p :: p in ignores ==> Harmless(Trim(p))
    ensures Kept(path, ignores) <==> !Ignored(path, ignores)
  {
    hide Trim, Hereditary, RealPath, PatternMatches;
    assert path[..|path|] == path && IsAncestorEnd(path, |path|);
    forall i: nat | i < |path| && IsAncestorEnd(path, i) && Ignored(path[..i], ignores)
      ensures Ignored(path, ignores)
    {
      var k :| 0 <= k < |ignores| && Matches(ignores[k], path[..i]);
      var p := Trim(ignores[k]);
      assert ignores[k] in ignores;
      RealAncestor(path, i);
      if !Hereditary(p) {
        MatchedIsReal(p, path[..i]);
      }
      PatternInherited(p, path, i);
      assert Matches(ignores[k], path);
    }
  }

  /** A path of some tree under a directory that a pattern ignores although it does not match the path. */
  predicate Escapes(pattern: string, path: string, i: nat) {
    && RealPath(path) && i < |path| && IsAncestorEnd(path, i)
    && Matches(pattern, path[..i]) && !Matches(pattern, path)
  }

  lemma {:induction false} EscapingPath(pattern: string) returns (path: string, i: nat)
    requires !Harmless(Trim(pattern))
    ensures Escapes(pattern, path, i)
  {
    hide Trim, Split, RealPath, RealName;
    var p := Trim(pattern);
    var dir := IgnoredDir(p);
    i := |p|;
    if p[0] != '*' {
      path := p + "/x";
      assert path == p + "/" + "x";
      RealLetter("x");
      RealConcat(p, "x");
      PlainEscapes(p);
    } else {
      var s := p[1..];
      var c := if s[|s| - 1] == 'b' then "c" else "b";
      path := dir + "/" + c;
      assert p == "*" + s;
      RealLetter(c);
      RealConcat(dir, c);
      StarEscapes(p, s, c);
    }
    assert path[..i] == dir && path[i] == '/';
  }

  lemma {:induction false} PlainEscapes(p: string)
    requires !Hereditary(p) && p[0] != '*'
    ensures PatternMatches(p, p) && !PatternMatches(p, p + "/x")
  {
    hide Split;
    assert p !in Split(p + "/x", '/');
  }

  lemma {:induction false} RealLetter(c: string)
    requires c == "x" || c == "b" || c == "c"
    ensures RealPath(c) && '/' !in c
  {
    RealSingle(c);
  }

  lemma {:induction false} StarEscapes(p: string, s: string, c: string)
    requires s != "" && p == "*" + s && (c == "b" || c == "c") && c[0] != s[|s| - 1]
    ensures PatternMatches(p, "a" + s) && !PatternMatches(p, ("a" + s) + "/" + c)
  {
    hide Split;
    var path := ("a" + s) + "/" + c;
    assert ("a" + s)[1..] == s && p[1..] == s;
    assert path[|path| - |s|..][|s| - 1] == c[0];
    SplitConcat("a" + s, '/', c);
    SplitWhole(c, '/');
    if '/' !in s {
      SplitWhole("a" + s, '/');
    }
    assert p !in Split(path, '/') by {
      assert p[0] == '*' && path[0] == 'a';
    }
  }

  /** The files whose own path is not ignored. */
  function FilterOwn(files: seq<Found>, ignores: seq<string>): seq<Found> {
    if files == [] then []
    else (if Ignored(files[0].path, ignores) then [] else [files[0]]) + FilterOwn(files[1..], ignores)
  }

  lemma {:induction false} SameFilter(files: seq<Found>, ignores: seq<string>)
    requires forall f :: f in files ==> (Kept(f.path, ignores) <==> !Ignored(f.path, ignores))
    ensures FilterKept(files, 0, ignores) == FilterOwn(files, ignores)
  {
    hide Ignored;
    if files != [] {
      assert files[0] in files;
      SameFilter(files[1..], ignores);
    }
  }

  /** With harmless patterns the scan lists exactly the files whose own path is not ignored. */
  lemma {:induction false} ScanByOwnPath(root: Entries, ignores: seq<string>)
    requires RealTree(root) && forall p :: p in ignores ==> Harmless(Trim(p))
    ensures Walk("", root, ignores) == FilterOwn(All("", root), ignores)
  {
    hide Trim, Harmless, RealPath, Kept, Ignored;
    RealIsValid(root);
    ScanMeetsSpecification(root, ignores);
    FilesAreReal("", root);
    forall f | f in All("", root) ensures Kept(f.path, ignores) <==> !Ignored(f.path, ignores) {
      RealPathNotEmpty(f.path);
      HarmlessSuffices(f.path, ignores);
    }
    SameFilter(All("", root), ignores);
  }

  lemma {:induction false} RealPathNotEmpty(path: string)
    requires RealPath(path)
    ensures path != ""
  {
    if path == "" {
      RealSingle("");
    }
  }

  /** A file's own path decides what the scan lists, in every tree, if and only if the pattern is harmless. */
  lemma {:induction false} OwnPathExactly(pattern: string, meta: Meta)
    ensures Harmless(Trim(pattern)) <==>
            forall root :: RealTree(root) ==> Walk("", root, [pattern]) == FilterOwn(All("", root), [pattern])
  {
    hide Trim, Harmless, RealPath, RealTree, Walk, FilterOwn, All;
    if Harmless(Trim(pattern)) {
      forall root | RealTree(root) ensures Walk("", root, [pattern]) == FilterOwn(All("", root), [pattern]) {
        ScanByOwnPath(root, [pattern]);
      }
    } else {
      var path, i := EscapingPath(pattern);
      var root := PathTree(Split(path, '/'), meta);
      EscapedFile(pattern, path, i, meta);
      assert RealTree(root);
    }
  }

  /** The tree that holds nothing but an escaping file: the scan leaves it out. */
  lemma {:induction false} EscapedFile(pattern: string, path: string, i: nat, meta: Meta)
    requires Escapes(pattern, path, i)
    ensures var root := PathTree(Split(path, '/'), meta);
            && RealTree(root) && Walk("", root, [pattern]) == []
            && FilterOwn(All("", root), [pattern]) == [Found(path, meta)]
  {
    hide Matches, Split, Walk, All;
    var root := PathTree(Split(path, '/'), meta);
    PathTreeFile("", Split(path, '/'), meta);
    JoinSplit(path, '/');
    RealIsValid(root);
    ScanMeetsSpecification(root, [pattern]);
    assert Matches([pattern][0], path[..i]);
    assert Ignored(path[..i], [pattern]) && !Ignored(path, [pattern]);
    assert !Kept(path, [pattern]);
    assert [Found(path, meta)][1..] == [];
  }
}
