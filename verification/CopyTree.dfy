/** Duplicating a file or a directory tree (node-functions/src/fs_local.rs 131-161) in a file system
    without links. A path is the list of its components; the empty list is the root. */
module CopyTree {
  import opened Options
  import opened Chunks

  type Path = seq<string>

  datatype Node = File(content: seq<byte>) | Dir

  type Nodes = map<Path, Node>

  function Get(fs: Nodes, p: Path): Option<Node> {
    if p in fs then Some(fs[p]) else None
  }

  /** The root is a directory and every other node lies in a directory. */
  ghost predicate WellFormed(fs: Nodes) {
    && Get(fs, []) == Some(Dir)
    && forall p :: p in fs && p != [] ==> Get(fs, p[..|p| - 1]) == Some(Dir)
  }

  /** Neither path is the other or an ancestor of it. */
  predicate Separate(a: Path, b: Path) {
    !(a <= b) && !(b <= a)
  }

  /** The trees for which the outcome does not depend on the order of the copies: separate ones, a directory
      onto itself, and one onto an ancestor that gets no entry of the name on the way to it. */
  ghost predicate Copyable(fs: Nodes, src: Path, dst: Path) {
    || Separate(src, dst)
    || (src == dst && IsDir(fs, src))
    || (dst < src && src + [src[|dst|]] !in fs)
  }

  predicate IsFile(fs: Nodes, p: Path) {
    p in fs && fs[p].File?
  }

  predicate IsDir(fs: Nodes, p: Path) {
    p in fs && fs[p] == Dir
  }

  /** No file stands where create_dir_all needs a directory. */
  predicate MayBeDir(fs: Nodes, p: Path) {
    forall i :: 0 <= i <= |p| ==> !IsFile(fs, p[..i])
  }

  // ----- the result ------------------------------------------------------------------------------------------

  /** The copy of a node; a file copied onto itself is emptied. */
  function Copied(node: Node, same: bool): Node {
    if same && node.File? then File([]) else node
  }

  /** The node at p after the whole source tree has been laid over dst: the copy of the source's node where
      there is one, a directory for dst's missing ancestors, and what was there before otherwise. */
  function Expected(fs: Nodes, src: Path, dst: Path, p: Path): Option<Node> {
    if dst <= p && src + p[|dst|..] in fs then Some(Copied(fs[src + p[|dst|..]], src == dst))
    else if p <= dst && Get(fs, p).None? then Some(Dir)
    else Get(fs, p)
  }

  /** The same when only the children named in done have been copied. */
  function Partly(fs: Nodes, src: Path, dst: Path, done: set<string>, p: Path): Option<Node> {
    if dst < p && p[|dst|] in done && src + p[|dst|..] in fs then Some(Copied(fs[src + p[|dst|..]], src == dst))
    else if p <= dst && Get(fs, p).None? then Some(Dir)
    else Get(fs, p)
  }

  /** Nothing but dst, its ancestors and what lies under it may differ. */
  ghost predicate OnlyAround(before: Nodes, after: Nodes, dst: Path) {
    && (forall p :: !(dst <= p) && !(p <= dst) ==> Get(after, p) == Get(before, p))
    && (forall p :: p < dst && Get(before, p).Some? ==> Get(after, p) == Get(before, p))
  }

  function Children(fs: Nodes, dir: Path): set<string> {
    set p | p in fs && |p| == |dir| + 1 && dir <= p :: p[|dir|]
  }

  function Subtree(fs: Nodes, p: Path): set<Path> {
    set q | q in fs && p <= q
  }

  function Prefixes(p: Path): set<Path> {
    set i | 0 <= i <= |p| :: p[..i]
  }

  /** cur is fs with the children in done laid over dst. */
  ghost predicate Progress(fs: Nodes, cur: Nodes, src: Path, dst: Path, done: set<string>) {
    forall p :: Get(cur, p) == Partly(fs, src, dst, done, p)
  }

  // ----- facts about paths and nodes ---------------------------------------------------------------------------

  lemma {:induction false} AncestorExists(fs: Nodes, p: Path, i: nat)
    requires WellFormed(fs) && p in fs && i <= |p|
    ensures p[..i] in fs && (i < |p| ==> fs[p[..i]] == Dir)
    decreases |p| - i
  {
    if i < |p| {
      AncestorExists(fs, p, i + 1);
      assert p[..i + 1][..i] == p[..i];
    } else {
      assert p[..i] == p;
    }
  }

  lemma {:induction false} PrefixExists(fs: Nodes, a: Path, p: Path)
    requires WellFormed(fs) && p in fs && a <= p
    ensures a in fs
  {
    AncestorExists(fs, p, |a|);
    assert p[..|a|] == a;
  }

  lemma {:induction false} NothingUnder(fs: Nodes, base: Path, p: Path)
    requires WellFormed(fs) && !IsDir(fs, base) && base < p
    ensures p !in fs
  {
    assert p[..|base|] == base;
    if p in fs {
      AncestorExists(fs, p, |base|);
    }
  }

  lemma {:induction false} Comparable(a: Path, b: Path, p: Path)
    requires a <= p && b <= p
    ensures a <= b || b <= a
  {
  }

  lemma {:induction false} SeparateBelow(src: Path, dst: Path, x: Path)
    requires Separate(src, dst)
    ensures !(dst <= src + x) && !(src + x <= dst)
  {
  }

  /** The children of copyable trees are copyable, and never in the third way. */
  lemma {:induction false} CopyableChildren(fs: Nodes, src: Path, dst: Path, name: string)
    requires Copyable(fs, src, dst) && src + [name] in fs
    ensures Separate(src + [name], dst + [name]) || src + [name] == dst + [name]
  {
    var from, to := src + [name], dst + [name];
    if src != dst {
      assert src <= from && dst <= to;
      if dst < src {
        assert from[|dst|] == src[|dst|] && to[|dst|] == name;
      } else if from <= to {
        Comparable(src, dst, to);
      } else if to <= from {
        Comparable(src, dst, from);
      }
    }
  }

  /** What is below the source and not copied yet is untouched. */
  lemma {:induction false} SourceUntouched(fs: Nodes, cur: Nodes, src: Path, dst: Path, done: set<string>, x: Path)
    requires WellFormed(fs) && Copyable(fs, src, dst) && Progress(fs, cur, src, dst, done)
    requires x == [] ==> src in fs
    requires src == dst && x != [] ==> x[0] !in done
    ensures Get(cur, src + x) == Get(fs, src + x)
  {
    var p := src + x;
    assert Get(cur, p) == Partly(fs, src, dst, done, p);
    if dst < src {
      var blocked := src + [src[|dst|]];
      assert p[|dst|] == src[|dst|] && blocked <= src + p[|dst|..];
      if src + p[|dst|..] in fs {
        PrefixExists(fs, blocked, src + p[|dst|..]);
      }
    } else if src == dst {
      assert x != [] ==> p[|dst|] == x[0];
      assert x == [] ==> p == src;
    }
  }

  /** Laying one more child over the target. */
  lemma {:induction false} ProgressStep(fs: Nodes, cur: Nodes, next: Nodes, src: Path, dst: Path,
                                        done: set<string>, name: string)
    requires WellFormed(fs) && Copyable(fs, src, dst) && Progress(fs, cur, src, dst, done)
    requires src + [name] in fs && name !in done
    requires forall p :: Get(next, p) == Expected(cur, src + [name], dst + [name], p)
    ensures Progress(fs, next, src, dst, done + {name})
  {
    hide Copyable, WellFormed;
    forall p ensures Get(next, p) == Partly(fs, src, dst, done + {name}, p) {
      assert Get(cur, p) == Partly(fs, src, dst, done, p);
      if dst + [name] <= p {
        var x := p[|dst|..];
        assert src + [name] + p[|dst| + 1..] == src + x;
        assert x[0] == name;
        SourceUntouched(fs, cur, src, dst, done, x);
        assert Get(cur, src + x) == Get(fs, src + x);
        SameName(src, dst, name);
        if p == dst + [name] {
          assert src + x == src + [name];
        }
      }
    }
  }

  lemma {:induction false} SameName(src: Path, dst: Path, name: string)
    ensures src + [name] == dst + [name] <==> src == dst
  {
    assert (src + [name])[..|src|] == src && (dst + [name])[..|dst|] == dst;
  }

  /** Copying a file is laying a tree of one node. */
  lemma {:induction false} FileIsTree(cur: Nodes, next: Nodes, from: Path, to: Path)
    requires WellFormed(cur) && IsFile(cur, from) && to != [] && IsDir(cur, to[..|to| - 1])
    requires next == cur[to := Copied(cur[from], from == to)]
    ensures forall p :: Get(next, p) == Expected(cur, from, to, p)
  {
    forall p ensures Get(next, p) == Expected(cur, from, to, p) {
      if to < p {
        NothingUnder(cur, from, from + p[|to|..]);
      } else if p == to {
        assert from + p[|to|..] == from;
      } else if p < to {
        AncestorExists(cur, to[..|to| - 1], |p|);
        assert p == to[..|to| - 1][..|p|];
      }
    }
  }

  lemma {:induction false} FileKeepsForm(cur: Nodes, from: Path, to: Path, file: Node)
    requires WellFormed(cur) && IsFile(cur, from) && !IsDir(cur, to) && to != [] && IsDir(cur, to[..|to| - 1])
    requires file.File?
    ensures WellFormed(cur[to := file])
  {
  }

  /** After create_dir_all nothing has been copied yet. */
  lemma {:induction false} ProgressStart(fs: Nodes, cur: Nodes, src: Path, dst: Path)
    requires WellFormed(fs) && MayBeDir(fs, dst)
    requires forall p :: Get(cur, p) == if p <= dst then Some(Dir) else Get(fs, p)
    ensures Progress(fs, cur, src, dst, {}) && WellFormed(cur) && IsDir(cur, dst)
  {
    hide WellFormed;
    StartForm(fs, cur, dst);
    assert dst <= dst && Get(cur, dst) == Some(Dir);
    forall p ensures Get(cur, p) == Partly(fs, src, dst, {}, p) {
      if p <= dst {
        NoFileAbove(fs, dst, p);
      }
    }
  }

  lemma {:induction false} NoFileAbove(fs: Nodes, dst: Path, p: Path)
    requires MayBeDir(fs, dst) && p <= dst
    ensures Get(fs, p).None? || Get(fs, p) == Some(Dir)
  {
    assert p == dst[..|p|];
  }

  lemma {:induction false} StartForm(fs: Nodes, cur: Nodes, dst: Path)
    requires WellFormed(fs)
    requires forall p :: Get(cur, p) == if p <= dst then Some(Dir) else Get(fs, p)
    ensures WellFormed(cur)
  {
    assert [] <= dst;
    forall p | p in cur && p != [] ensures Get(cur, p[..|p| - 1]) == Some(Dir) {
      var q := p[..|p| - 1];
      assert p <= dst ==> q == dst[..|q|];
      if !(p <= dst) {
        assert Get(cur, p) == Get(fs, p);
      }
    }
  }

  /** When every child is done, the whole tree is. */
  lemma {:induction false} ProgressEnd(fs: Nodes, cur: Nodes, src: Path, dst: Path)
    requires WellFormed(fs) && MayBeDir(fs, dst) && IsDir(fs, src)
    requires Progress(fs, cur, src, dst, Children(fs, src))
    ensures forall p :: Get(cur, p) == Expected(fs, src, dst, p)
  {
    hide WellFormed;
    forall p ensures Get(cur, p) == Expected(fs, src, dst, p) {
      assert Get(cur, p) == Partly(fs, src, dst, Children(fs, src), p);
      if p == dst {
        assert src + p[|dst|..] == src && dst == dst[..|dst|];
      } else if dst < p && src + p[|dst|..] in fs {
        var q := src + p[|dst|..];
        AncestorExists(fs, q, |src| + 1);
        assert q[..|src| + 1] == src + [p[|dst|]];
        assert q[..|src| + 1][|src|] == p[|dst|];
      }
    }
  }

  lemma {:induction false} ProgressAround(fs: Nodes, cur: Nodes, src: Path, dst: Path, done: set<string>)
    requires Progress(fs, cur, src, dst, done)
    ensures OnlyAround(fs, cur, dst)
  {
  }

  lemma {:induction false} AroundChild(fs: Nodes, cur: Nodes, next: Nodes, dst: Path, name: string)
    requires OnlyAround(fs, cur, dst) && OnlyAround(cur, next, dst + [name])
    ensures OnlyAround(fs, next, dst)
  {
  }

  /** A missing target stays missing child by child. */
  lemma {:induction false} FreshChild(fs: Nodes, cur: Nodes, src: Path, dst: Path, done: set<string>, name: string)
    requires WellFormed(fs) && dst !in fs && name !in done && Progress(fs, cur, src, dst, done) && IsDir(cur, dst)
    requires WellFormed(cur)
    ensures dst + [name] !in cur && MayBeDir(cur, dst + [name])
  {
    var to := dst + [name];
    NothingUnder(fs, dst, to);
    assert Get(cur, to) == Partly(fs, src, dst, done, to) == None;
    forall i | 0 <= i <= |to| ensures !IsFile(cur, to[..i]) {
      if i <= |dst| {
        AncestorExists(cur, dst, i);
        assert to[..i] == dst[..i] && dst[..|dst|] == dst;
      } else {
        assert to[..i] == to;
      }
    }
  }

  lemma {:induction false} ChildTree(fs: Nodes, cur: Nodes, src: Path, dst: Path, done: set<string>, name: string)
    requires WellFormed(fs) && Copyable(fs, src, dst) && Progress(fs, cur, src, dst, done)
    requires name in Children(fs, src) && name !in done && IsDir(fs, src)
    ensures src + [name] in fs && src + [name] in cur && cur[src + [name]] == fs[src + [name]]
    ensures Subtree(cur, src + [name]) < Subtree(fs, src)
  {
    hide WellFormed, Copyable, Progress;
    var from := src + [name];
    var c :| c in fs && |c| == |src| + 1 && src <= c && c[|src|] == name;
    assert c == from;
    SourceUntouched(fs, cur, src, dst, done, [name]);
    forall q | q in Subtree(cur, from) ensures q in Subtree(fs, src) {
      assert q[|src|] == from[|src|] == name;
      SourceUntouched(fs, cur, src, dst, done, q[|src|..]);
      assert src + q[|src|..] == q;
    }
    assert src in Subtree(fs, src) && src !in Subtree(cur, from);
  }

  // ----- when a copy succeeds ----------------------------------------------------------------------------------

  /** No file of the source meets a directory of the target, and no directory a file, at this place. */
  predicate Fits(fs: Nodes, src: Path, dst: Path, x: Path) {
    src + x in fs && dst + x in fs ==> (fs[src + x].File? <==> fs[dst + x].File?)
  }

  ghost predicate NoClash(fs: Nodes, src: Path, dst: Path) {
    forall x :: Fits(fs, src, dst, x)
  }

  ghost predicate ChildFits(fs: Nodes, src: Path, dst: Path, name: string) {
    forall y :: Fits(fs, src, dst, [name] + y)
  }

  /** No file stands at the path or above it. */
  lemma {:induction false} MayBeDirExactly(fs: Nodes, p: Path)
    ensures MayBeDir(fs, p) <==> forall q :: q <= p && q in fs ==> fs[q] == Dir
  {
    if MayBeDir(fs, p) {
      forall q | q <= p && q in fs ensures fs[q] == Dir {
        assert q == p[..|q|];
      }
    }
    if forall q :: q <= p && q in fs ==> fs[q] == Dir {
      forall i | 0 <= i <= |p| ensures !IsFile(fs, p[..i]) {
        assert p[..i] <= p;
      }
    }
  }

  /** A child that is not done yet fits now if and only if it fitted at first. */
  lemma {:induction false} ChildSame(fs: Nodes, cur: Nodes, src: Path, dst: Path, done: set<string>, name: string)
    requires WellFormed(fs) && Copyable(fs, src, dst) && Progress(fs, cur, src, dst, done) && name !in done
    ensures NoClash(cur, src + [name], dst + [name]) <==> ChildFits(fs, src, dst, name)
    ensures Get(cur, dst + [name]) == Get(fs, dst + [name])
  {
    hide WellFormed, Copyable, Progress;
    forall y ensures Fits(cur, src + [name], dst + [name], y) <==> Fits(fs, src, dst, [name] + y)
    {
      PlaceSame(fs, cur, src, dst, done, name, y);
    }
    PlaceSame(fs, cur, src, dst, done, name, []);
    assert dst + [name] + [] == dst + [name];
  }

  lemma {:induction false} PlaceSame(fs: Nodes, cur: Nodes, src: Path, dst: Path, done: set<string>, name: string,
                                     y: Path)
    requires WellFormed(fs) && Copyable(fs, src, dst) && Progress(fs, cur, src, dst, done) && name !in done
    ensures Get(cur, dst + [name] + y) == Get(fs, dst + [name] + y)
    ensures Fits(cur, src + [name], dst + [name], y) <==> Fits(fs, src, dst, [name] + y)
  {
    hide WellFormed, Copyable;
    var p := dst + [name] + y;
    assert Get(cur, p) == Partly(fs, src, dst, done, p);
    assert p[|dst|] == name;
    SourceUntouched(fs, cur, src, dst, done, [name] + y);
    assert src + [name] + y == src + ([name] + y) && p == dst + ([name] + y);
  }

  /** The outcome of one child's copy, before it is made. */
  lemma {:induction false} ChildOutcome(fs: Nodes, cur: Nodes, src: Path, dst: Path, done: set<string>, name: string)
    requires WellFormed(fs) && WellFormed(cur) && Copyable(fs, src, dst) && Progress(fs, cur, src, dst, done)
    requires name !in done && src + [name] in cur && IsDir(cur, dst)
    ensures var from, to := src + [name], dst + [name];
            && (IsDir(cur, from) ==> (MayBeDir(cur, to) && NoClash(cur, from, to) <==> ChildFits(fs, src, dst, name)))
            && (!IsDir(cur, from) ==> (!IsDir(cur, to) <==> ChildFits(fs, src, dst, name)))
  {
    hide Copyable, Progress, ChildFits, MayBeDir, NoClash, WellFormed;
    var from, to := src + [name], dst + [name];
    ChildSame(fs, cur, src, dst, done, name);
    assert from + [] == from && to + [] == to;
    if IsDir(cur, from) {
      TargetMayBeDir(cur, dst, name);
      if NoClash(cur, from, to) {
        RootFits(cur, from, to);
      }
    } else {
      FileFits(cur, from, to);
    }
  }

  lemma {:induction false} RootFits(cur: Nodes, from: Path, to: Path)
    requires IsDir(cur, from) && NoClash(cur, from, to)
    ensures !IsFile(cur, to)
  {
    assert from + [] == from && to + [] == to;
    assert Fits(cur, from, to, []);
  }

  lemma {:induction false} TargetMayBeDir(cur: Nodes, dst: Path, name: string)
    requires WellFormed(cur) && IsDir(cur, dst)
    ensures MayBeDir(cur, dst + [name]) <==> !IsFile(cur, dst + [name])
  {
    hide WellFormed;
    var to := dst + [name];
    assert to[..|to|] == to;
    forall i | 0 <= i < |to| ensures !IsFile(cur, to[..i]) {
      AncestorExists(cur, dst, i);
      assert to[..i] == dst[..i] && dst[..|dst|] == dst;
    }
  }

  lemma {:induction false} FileFits(cur: Nodes, from: Path, to: Path)
    requires WellFormed(cur) && IsFile(cur, from)
    ensures NoClash(cur, from, to) <==> !IsDir(cur, to)
  {
    assert from + [] == from && to + [] == to;
    if NoClash(cur, from, to) {
      assert Fits(cur, from, to, []);
    }
    forall x | x != [] ensures Fits(cur, from, to, x) {
      NothingUnder(cur, from, from + x);
    }
  }

  lemma {:induction false} NoFit(fs: Nodes, src: Path, dst: Path, name: string)
    requires !ChildFits(fs, src, dst, name)
    ensures !NoClash(fs, src, dst)
  {
  }

  /** When the target may be a directory and every child fits, everything does. */
  lemma {:induction false} AllFit(fs: Nodes, src: Path, dst: Path)
    requires WellFormed(fs) && IsDir(fs, src) && MayBeDir(fs, dst)
    requires forall name :: name in Children(fs, src) ==> ChildFits(fs, src, dst, name)
    ensures NoClash(fs, src, dst)
  {
    forall x ensures Fits(fs, src, dst, x) {
      if x == [] {
        assert src + [] == src && dst + [] == dst && dst[..|dst|] == dst;
      } else if src + x in fs {
        var q := src + x;
        AncestorExists(fs, q, |src| + 1);
        assert q[..|src| + 1] == src + [x[0]] && q[..|src| + 1][|src|] == x[0];
        assert x[0] in Children(fs, src);
        assert x == [x[0]] + x[1..];
        assert Fits(fs, src, dst, [x[0]] + x[1..]);
      }
    }
  }

  class FileSystem {
    var nodes: Nodes

    /** create_dir_all: all or nothing. */
    method CreateDirAll(dst: Path) returns (ok: bool)
      modifies this
      ensures ok <==> MayBeDir(old(nodes), dst)
      ensures !ok ==> nodes == old(nodes)
      ensures ok ==> forall p :: Get(nodes, p) == if p <= dst then Some(Dir) else Get(old(nodes), p)
    {
      ok := MayBeDir(nodes, dst);
      if ok {
        nodes := nodes + map p | p in Prefixes(dst) :: Dir;
        forall p ensures p <= dst <==> p in Prefixes(dst) {
          assert p <= dst ==> p == dst[..|p|];
        }
      }
    }

    /** fs::copy: needs a source file, an existing parent directory and no directory at the target. The
        target is opened, and emptied, before the source is read: a file copied onto itself is lost. */
    method CopyFile(src: Path, dst: Path) returns (ok: bool)
      modifies this
      ensures ok <==> IsFile(old(nodes), src) && !IsDir(old(nodes), dst)
                      && dst != [] && IsDir(old(nodes), dst[..|dst| - 1])
      ensures nodes == if ok then old(nodes)[dst := Copied(old(nodes)[src], src == dst)] else old(nodes)
    {
      ok := IsFile(nodes, src) && !IsDir(nodes, dst) && dst != [] && IsDir(nodes, dst[..|dst| - 1]);
      if ok {
        nodes := nodes[dst := File([])];
        nodes := nodes[dst := nodes[src]];
      }
    }

    /** The recursive copy. Every success lays the whole source tree over the target; a failure leaves
        everything outside the target as it was. A target that does not exist below plain directories
        cannot fail, and neither can a directory copied onto itself: it loses the contents of its files. */
    method CopyTree(src: Path, dst: Path) returns (ok: bool)
      requires WellFormed(nodes) && Copyable(nodes, src, dst)
      modifies this
      ensures WellFormed(nodes)
      ensures ok ==> forall p :: Get(nodes, p) == Expected(old(nodes), src, dst, p)
      ensures OnlyAround(old(nodes), nodes, dst)
      ensures IsDir(old(nodes), src) && dst !in old(nodes) && MayBeDir(old(nodes), dst) ==> ok
      ensures src == dst ==> ok
      ensures ok <==> IsDir(old(nodes), src) && MayBeDir(old(nodes), dst) && NoClash(old(nodes), src, dst)
      decreases Subtree(nodes, src)
    {
      hide NoClash, ChildFits, Progress, OnlyAround, MayBeDir, Copyable, Separate, Expected, Children, Subtree,
        WellFormed;
      ghost var fs := nodes;
      if src == dst {
        OntoItself(fs, src);
      }
      ok := CreateDirAll(dst);
      if !ok {
        AroundSame(fs, dst);
        return;
      }
      ProgressStart(fs, nodes, src, dst);
      ProgressAround(fs, nodes, src, dst, {});
      SameSource(fs, nodes, src, dst);
      if !IsDir(nodes, src) {
        return false;
      }
      var todo := Children(nodes, src);
      ghost var done := {};
      while todo != {}
        invariant ok && WellFormed(nodes) && IsDir(nodes, dst)
        invariant forall name :: name in done ==> ChildFits(fs, src, dst, name)
        invariant todo !! done && todo + done == Children(fs, src)
        invariant Progress(fs, nodes, src, dst, done) && OnlyAround(fs, nodes, dst)
        decreases todo
      {
        var name :| name in todo;
        ghost var cur := nodes;
        var from, to := src + [name], dst + [name];
        assert to[..|to| - 1] == dst;
        ChildTree(fs, cur, src, dst, done, name);
        CopyableChildren(fs, src, dst, name);
        SameName(src, dst, name);
        ChildOutcome(fs, cur, src, dst, done, name);
        if dst !in fs {
          FreshChild(fs, cur, src, dst, done, name);
        }
        if IsDir(nodes, from) {
          ChildCopyable(cur, from, to);
          ok := CopyTree(from, to);
        } else {
          ok := CopyFile(from, to);
          AroundFile(cur, nodes, to);
          if ok {
            FileKeepsForm(cur, from, to, nodes[to]);
            FileIsTree(cur, nodes, from, to);
          }
        }
        AroundChild(fs, cur, nodes, dst, name);
        if !ok {
          NoFit(fs, src, dst, name);
          return;
        }
        ProgressStep(fs, cur, nodes, src, dst, done, name);
        TargetStays(cur, nodes, to, dst);
        todo, done := todo - {name}, done + {name};
      }
      ProgressEnd(fs, nodes, src, dst);
      AllFit(fs, src, dst);
    }

    /** A file is copied, a directory is copied with everything in it. The target of a file holds what the
        source held if and only if it is another path or the source was empty. */
    method DuplicateEntry(src: Path, dst: Path) returns (ok: bool)
      requires WellFormed(nodes) && (IsDir(nodes, src) ==> Copyable(nodes, src, dst))
      modifies this
      ensures WellFormed(nodes)
      ensures ok ==> forall p :: Get(nodes, p) == Expected(old(nodes), src, dst, p)
      ensures ok && IsFile(old(nodes), src) ==>
                (Get(nodes, dst) == Get(old(nodes), src) <==> src != dst || old(nodes)[src] == File([]))
      ensures OnlyAround(old(nodes), nodes, dst)
      ensures IsDir(old(nodes), src) && dst !in old(nodes) && MayBeDir(old(nodes), dst) ==> ok
      ensures src == dst && src != [] && src in old(nodes) ==> ok
      ensures IsDir(old(nodes), src) ==> (ok <==> MayBeDir(old(nodes), dst) && NoClash(old(nodes), src, dst))
      ensures !IsDir(old(nodes), src) ==>
                (ok <==> IsFile(old(nodes), src) && !IsDir(old(nodes), dst)
                         && dst != [] && IsDir(old(nodes), dst[..|dst| - 1]))
    {
      hide Expected, OnlyAround, MayBeDir, Copyable, NoClash;
      ghost var fs := nodes;
      if !IsDir(nodes, src) {
        ok := CopyFile(src, dst);
        AroundFile(fs, nodes, dst);
        if ok {
          FileKeepsForm(fs, src, dst, nodes[dst]);
          FileIsTree(fs, nodes, src, dst);
        }
      } else {
        ok := CopyTree(src, dst);
      }
    }
  }

  /** Directories copied onto themselves: the same files and directories, and nothing in any file. */
  lemma {:induction false} SelfCopyEmpties(fs: Nodes, src: Path, p: Path)
    requires WellFormed(fs) && src in fs
    ensures Expected(fs, src, src, p) ==
            if src <= p && IsFile(fs, p) then Some(File([])) else Get(fs, p)
  {
    assert src <= p ==> src + p[|src|..] == p;
    if p <= src {
      PrefixExists(fs, p, src);
    }
  }

  /** For a target that does not exist and is not inside the source, what success leaves behind is an
      exact copy: the target's subtree is the source's, the source is unchanged, and outside the target
      only missing ancestors of it were created. */
  lemma {:induction false} ExactCopy(fs: Nodes, src: Path, dst: Path)
    requires WellFormed(fs) && IsDir(fs, src) && dst !in fs && !(src <= dst)
    ensures Separate(src, dst)
    ensures forall x :: Expected(fs, src, dst, dst + x) == Get(fs, src + x)
    ensures forall x :: Expected(fs, src, dst, src + x) == Get(fs, src + x)
    ensures forall p :: !(dst <= p) ==>
              Expected(fs, src, dst, p) == if p < dst && p !in fs then Some(Dir) else Get(fs, p)
  {
    if dst <= src {
      PrefixExists(fs, dst, src);
    }
    forall x ensures Expected(fs, src, dst, dst + x) == Get(fs, src + x) {
      var p := dst + x;
      assert p[|dst|..] == x;
      if x == [] {
        assert src + x == src;
      } else {
        NothingUnder(fs, dst, p);
      }
    }
    forall x ensures Expected(fs, src, dst, src + x) == Get(fs, src + x) {
      SeparateBelow(src, dst, x);
    }
  }

  lemma {:induction false} AroundSame(fs: Nodes, dst: Path)
    ensures OnlyAround(fs, fs, dst)
  {
  }

  lemma {:induction false} AroundFile(cur: Nodes, next: Nodes, to: Path)
    requires next == cur || (to in next && next == cur[to := next[to]])
    ensures OnlyAround(cur, next, to)
  {
  }

  lemma {:induction false} TargetStays(cur: Nodes, next: Nodes, to: Path, dst: Path)
    requires OnlyAround(cur, next, to) && dst < to && IsDir(cur, dst)
    ensures IsDir(next, dst)
  {
    assert Get(next, dst) == Get(cur, dst);
  }

  lemma {:induction false} SameSource(fs: Nodes, cur: Nodes, src: Path, dst: Path)
    requires WellFormed(fs) && Copyable(fs, src, dst) && Progress(fs, cur, src, dst, {})
    ensures Children(cur, src) == Children(fs, src) && (IsDir(cur, src) <==> IsDir(fs, src))
  {
    SourceItself(fs, cur, src, dst);
    forall p | |p| == |src| + 1 && src <= p ensures Get(cur, p) == Get(fs, p) {
      SourceUntouched(fs, cur, src, dst, {}, p[|src|..]);
      assert src + p[|src|..] == p;
    }
  }

  lemma {:induction false} SourceItself(fs: Nodes, cur: Nodes, src: Path, dst: Path)
    requires Copyable(fs, src, dst) && Progress(fs, cur, src, dst, {})
    ensures Get(cur, src) == Get(fs, src)
  {
    assert Get(cur, src) == Partly(fs, src, dst, {}, src);
  }

  /** Ways to be copyable that do not depend on the file system. */
  lemma {:induction false} ChildCopyable(cur: Nodes, from: Path, to: Path)
    requires (Separate(from, to) || from == to) && IsDir(cur, from)
    ensures Copyable(cur, from, to)
  {
  }

  lemma {:induction false} OntoItself(fs: Nodes, src: Path)
    requires WellFormed(fs) && Copyable(fs, src, src)
    ensures IsDir(fs, src) && MayBeDir(fs, src)
  {
    forall i | 0 <= i <= |src| ensures !IsFile(fs, src[..i]) {
      AncestorExists(fs, src, i);
      assert src[..|src|] == src;
    }
  }
}
