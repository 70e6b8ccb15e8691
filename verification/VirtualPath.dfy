/** How a peer maps the paths of its virtual file system onto its shares and back
    (p2p-handlers/src/fs_local.rs and the sandbox of node-functions/src/fs_local.rs).

    Local paths are POSIX texts. Two absolute texts name the same place when their component
    lists agree; Names is that list: repeated separators and "." vanish, ".." stays. */
module VirtualPath {
  import opened Text
  import opened Options

  datatype Share = Share(name: string, path: string)

  datatype Resolved =
    | Root(names: seq<string>)
    | At(local: string, base: string, prefix: string)

  // ----- components of a path text -------------------------------------------------------------

  predicate Noise(seg: string) {
    seg == "" || seg == "."
  }

  function Significant(segs: seq<string>): seq<string> {
    if segs == [] then []
    else (if Noise(segs[0]) then [] else [segs[0]]) + Significant(segs[1..])
  }

  function Names(path: string): seq<string> {
    Significant(Split(path, '/'))
  }

  predicate Absolute(path: string) {
    path != "" && path[0] == '/'
  }

  predicate NoParentDir(names: seq<string>) {
    ".." !in names
  }

  /** Path::join for a right-hand side that is not absolute. */
  function JoinPath(base: string, rel: string): string {
    if base == "" || base[|base| - 1] == '/' then base + rel else base + "/" + rel
  }

  /** The base, a slash unless there is one or no base, and the rest. */
  lemma {:induction false} JoinShape(base: string, rel: string)
    ensures var text := JoinPath(base, rel);
            && base <= text && EndsWith(text, rel)
            && (|text| == |base| + |rel| <==> base == "" || base[|base| - 1] == '/')
            && (|text| != |base| + |rel| ==> |text| == |base| + 1 + |rel| && text[|base|] == '/')
  {
  }

  lemma {:induction false} SignificantConcat(a: seq<string>, b: seq<string>)
    ensures Significant(a + b) == Significant(a) + Significant(b)
  {
    if a == [] {
      assert a + b == b;
    } else {
      assert (a + b)[1..] == a[1..] + b;
      SignificantConcat(a[1..], b);
    }
  }

  lemma {:induction false} NamesConcat(a: string, b: string)
    ensures Names(a + "/" + b) == Names(a) + Names(b)
  {
    SplitConcat(a, '/', b);
    SignificantConcat(Split(a, '/'), Split(b, '/'));
  }

  lemma {:induction false} NamesSlash(s: string)
    ensures Names("/" + s) == Names(s)
  {
  }

  lemma {:induction false} NamesTrimStart(s: string)
    ensures Names(TrimStartChar(s, '/')) == Names(s)
  {
    if s != [] && s[0] == '/' {
      NamesTrimStart(s[1..]);
      NamesSlash(s[1..]);
      assert s == "/" + s[1..];
    }
  }

  lemma {:induction false} NamesJoinPath(base: string, rel: string)
    ensures Names(JoinPath(base, rel)) == Names(base) + Names(rel)
  {
    NamesConcat(base, rel);
    if base == "" {
      NamesSlash(rel);
      assert base + "/" + rel == "/" + rel;
      assert base + rel == rel;
    } else if base[|base| - 1] == '/' {
      var b := base[..|base| - 1];
      assert base == b + "/" + "";
      NamesConcat(b, "");
      NamesConcat(b, rel);
      assert base + rel == b + "/" + rel;
      NamesEmpty();
    }
  }

  lemma {:induction false} SignificantMembers(segs: seq<string>, x: string)
    ensures x in Significant(segs) <==> x in segs && !Noise(x)
  {
    if segs != [] {
      SignificantMembers(segs[1..], x);
      assert segs == [segs[0]] + segs[1..];
    }
  }

  // ----- the peer's resolution -------------------------------------------------------------------

  /** Resolves a peer-supplied path inside base, or None if it tries to leave. */
  function ResolveAndSandbox(base: string, userPath: string): Option<string> {
    var rel := TrimStartChar(userPath, '/');
    if NoParentDir(Names(rel)) then Some(JoinPath(base, rel)) else None
  }

  /** The first share with this name. */
  function FindShare(shares: seq<Share>, name: string): Option<Share> {
    if shares == [] then None
    else if shares[0].name == name then Some(shares[0])
    else FindShare(shares[1..], name)
  }

  /** Share k has the name and no earlier one does. */
  predicate IsFirst(shares: seq<Share>, k: int, name: string) {
    0 <= k < |shares| && shares[k].name == name && forall j :: 0 <= j < k ==> shares[j].name != name
  }

  lemma {:induction false} FindShareFirst(shares: seq<Share>, name: string)
    ensures (forall s :: s in shares ==> s.name != name) ==> FindShare(shares, name) == None
    ensures forall k :: IsFirst(shares, k, name) ==> FindShare(shares, name) == Some(shares[k])
  {
    if shares != [] && shares[0].name != name {
      var rest := shares[1..];
      FindShareFirst(rest, name);
      forall k | IsFirst(shares, k, name) ensures FindShare(shares, name) == Some(shares[k]) {
        assert IsFirst(rest, k - 1, name);
      }
    } else if shares != [] {
      assert shares[0] in shares;
    }
  }

  function ShareNames(shares: seq<Share>): seq<string> {
    if shares == [] then [] else [shares[0].name] + ShareNames(shares[1..])
  }

  lemma {:induction false} ShareNamesInOrder(shares: seq<Share>)
    ensures |ShareNames(shares)| == |shares|
    ensures forall i :: 0 <= i < |shares| ==> ShareNames(shares)[i] == shares[i].name
  {
    if shares != [] {
      ShareNamesInOrder(shares[1..]);
    }
  }

  function ResolveIn(shares: seq<Share>, vpath: string): Option<Resolved> {
    if shares == [] then None
    else if |shares| == 1 then
      match ResolveAndSandbox(shares[0].path, vpath)
      case None => None
      case Some(local) => Some(At(local, shares[0].path, ""))
    else
      var seg := TrimStartChar(vpath, '/');
      if seg == "" then Some(Root(ShareNames(shares)))
      else
        var cut := SplitOnce(seg, '/');
        if cut.None? then ResolveNamed(shares, seg, "") else ResolveNamed(shares, cut.value.left, cut.value.right)
  }

  /** The rest of a path inside the share with this name. */
  function ResolveNamed(shares: seq<Share>, name: string, rest: string): Option<Resolved> {
    match FindShare(shares, name)
    case None => None
    case Some(share) =>
      match ResolveAndSandbox(share.path, rest)
      case None => None
      case Some(local) => Some(At(local, share.path, "/" + name))
  }

  /** Every share is at an absolute path. */
  predicate AbsoluteShares(shares: seq<Share>) {
    forall s :: s in shares ==> Absolute(s.path)
  }

  // ----- parent and prefix of path texts ---------------------------------------------------------

  /** The last segments that are not components are dropped; the first segment, which for an
      absolute path stands for the root, is kept. */
  function TrimRight(segs: seq<string>): seq<string> {
    if |segs| > 1 && Noise(segs[|segs| - 1]) then TrimRight(segs[..|segs| - 1]) else segs
  }

  function Render(segs: seq<string>): string {
    if segs == [""] then "/" else Join(segs, '/')
  }

  /** Path::parent of an absolute path. */
  function Parent(path: string): Option<string> {
    var segs := TrimRight(Split(path, '/'));
    if |segs| <= 1 then None else Some(Render(TrimRight(segs[..|segs| - 1])))
  }

  /** The segments after the first n components and the noise that follows them. */
  function AfterNames(segs: seq<string>, n: nat): seq<string> {
    if segs == [] then []
    else if Noise(segs[0]) then AfterNames(segs[1..], n)
    else if n == 0 then segs
    else AfterNames(segs[1..], n - 1)
  }

  /** Path::strip_prefix of absolute paths. */
  function StripPrefix(path: string, base: string): Option<string> {
    if Names(base) <= Names(path) then Some(Join(AfterNames(Split(path, '/'), |Names(base)|), '/'))
    else None
  }

  /** The text of local's parent below base; empty when the parent is base or outside it. */
  function ParentRel(local: string, base: string): string {
    var parent := match Parent(local) case None => base case Some(p) => p;
    match StripPrefix(parent, base) case None => "" case Some(rel) => rel
  }

  /** The virtual path of the entry at rel inside the share with this prefix. */
  function VirtualText(prefix: string, rel: string): string {
    if prefix == "" && rel == "" then "/"
    else if prefix == "" then "/" + rel
    else if rel == "" then prefix
    else prefix + "/" + rel
  }

  function VirtualParent(local: string, base: string, prefix: string): string {
    VirtualText(prefix, Replace(ParentRel(local, base), '\\', '/'))
  }

  // ----- what parent and strip_prefix do to component lists -----------------------------------------

  predicate SlashFree(segs: seq<string>) {
    forall x :: x in segs ==> '/' !in x
  }

  lemma {:induction false} TrimRightSignificant(segs: seq<string>)
    ensures Significant(TrimRight(segs)) == Significant(segs)
    ensures TrimRight(segs) <= segs
    ensures segs != [] ==> TrimRight(segs) != []
    ensures |TrimRight(segs)| > 1 ==> !Noise(TrimRight(segs)[|TrimRight(segs)| - 1])
  {
    if |segs| > 1 && Noise(segs[|segs| - 1]) {
      var init, last := segs[..|segs| - 1], segs[|segs| - 1..];
      TrimRightSignificant(init);
      SignificantConcat(init, last);
      assert segs == init + last;
      assert last == [segs[|segs| - 1]] && last[1..] == [];
    }
  }

  lemma {:induction false} RenderNames(segs: seq<string>)
    requires segs != [] && segs[0] == "" && SlashFree(segs)
    ensures Names(Render(segs)) == Significant(segs) && Absolute(Render(segs))
  {
    if segs == [""] {
      NamesSlash("");
      assert "/" + "" == "/";
      SplitWhole("", '/');
    } else {
      SplitJoin(segs, '/');
      assert |segs| > 1;
      assert Join(segs, '/') == "" + "/" + Join(segs[1..], '/');
    }
  }

  lemma {:induction false} SlashFreePrefix(a: seq<string>, b: seq<string>)
    requires a <= b && SlashFree(b)
    ensures SlashFree(a)
  {
  }

  lemma {:induction false} ParentNames(path: string)
    requires Absolute(path)
    ensures Parent(path).None? <==> Names(path) == []
    ensures Parent(path).Some? ==>
              && Absolute(Parent(path).value)
              && Names(Parent(path).value) == Names(path)[..|Names(path)| - 1]
  {
    hide Split, TrimRight;
    var all := Split(path, '/');
    var segs := TrimRight(all);
    SplitStep("", '/', path[1..]);
    assert path == "" + "/" + path[1..];
    TrimRightSignificant(all);
    assert segs[0] == "";
    if |segs| == 1 {
      assert segs == [""];
      assert Significant([""]) == [];
    } else {
      var init, last := segs[..|segs| - 1], segs[|segs| - 1..];
      assert segs == init + last;
      SignificantConcat(init, last);
      assert last == [segs[|segs| - 1]] && last[1..] == [];
      assert Significant(last) == last;
      TrimRightSignificant(init);
      SlashFreePrefix(TrimRight(init), all);
      RenderNames(TrimRight(init));
    }
  }

  lemma {:induction false} AfterNamesSignificant(segs: seq<string>, n: nat)
    requires n <= |Significant(segs)|
    ensures Significant(AfterNames(segs, n)) == Significant(segs)[n..]
    ensures forall x :: x in AfterNames(segs, n) ==> x in segs
  {
    if segs != [] {
      var rest := segs[1..];
      if Noise(segs[0]) {
        AfterNamesSignificant(rest, n);
      } else if n > 0 {
        assert Significant(segs) == [segs[0]] + Significant(rest);
        AfterNamesSignificant(rest, n - 1);
        assert Significant(segs)[n..] == Significant(rest)[n - 1..];
      }
    }
  }

  lemma {:induction false} NamesOfJoin(segs: seq<string>)
    requires SlashFree(segs)
    ensures Names(Join(segs, '/')) == Significant(segs)
  {
    if segs == [] {
      NamesEmpty();
    } else {
      SplitJoin(segs, '/');
    }
  }

  /** The components of the parent's text below the base: all of local's but the last, or none. */
  lemma {:induction false} ParentRelNames(local: string, base: string, below: seq<string>)
    requires Absolute(local) && Absolute(base) && Names(local) == Names(base) + below
    ensures Names(ParentRel(local, base)) == Up(below)
  {
    var k := |Names(base)|;
    ParentNames(local);
    var parent := match Parent(local) case None => base case Some(p) => p;
    assert below == [] || Names(parent) == Names(base) + Up(below);
    if Names(base) <= Names(parent) {
      AfterNamesSignificant(Split(parent, '/'), k);
      NamesOfJoin(AfterNames(Split(parent, '/'), k));
    } else {
      NamesEmpty();
    }
  }

  /** A component list without its last component; the empty list stays. */
  function Up(names: seq<string>): seq<string> {
    if names == [] then [] else names[..|names| - 1]
  }

  // ----- resolving inside one share -----------------------------------------------------------------

  /** prefix is the virtual name of the share at base. */
  predicate SharePrefix(shares: seq<Share>, base: string, prefix: string) {
    if |shares| == 1 then prefix == "" && base == shares[0].path
    else
      && |prefix| > 1 && prefix[0] == '/' && '/' !in prefix[1..]
      && FindShare(shares, prefix[1..]).Some?
      && FindShare(shares, prefix[1..]).value.path == base
  }

  lemma {:induction false} FindShareIn(shares: seq<Share>, name: string)
    requires FindShare(shares, name).Some?
    ensures FindShare(shares, name).value in shares
  {
    if shares[0].name != name {
      FindShareIn(shares[1..], name);
    }
  }

  lemma {:induction false} SandboxNames(base: string, userPath: string)
    ensures ResolveAndSandbox(base, userPath).Some? <==> NoParentDir(Names(userPath))
    ensures ResolveAndSandbox(base, userPath).Some? ==>
              Names(ResolveAndSandbox(base, userPath).value) == Names(base) + Names(userPath)
    ensures ResolveAndSandbox(base, userPath).Some? && Absolute(base) ==>
              Absolute(ResolveAndSandbox(base, userPath).value)
  {
    NamesTrimStart(userPath);
    NamesJoinPath(base, TrimStartChar(userPath, '/'));
  }

  /** Whatever the peer resolves to an entry lies inside a share, at the share's path followed by
      component names none of which is "..". */
  lemma {:induction false} ResolvedInsideShare(shares: seq<Share>, vpath: string)
    requires ResolveIn(shares, vpath).Some? && ResolveIn(shares, vpath).value.At?
    ensures shares != []
    ensures var At(local, base, prefix) := ResolveIn(shares, vpath).value;
            && SharePrefix(shares, base, prefix)
            && (exists s :: s in shares && s.path == base)
            && Names(base) <= Names(local)
            && NoParentDir(Names(local)[|Names(base)|..])
            && (Absolute(base) ==> Absolute(local))
  {
    if |shares| == 1 {
      assert shares[0] in shares;
      SandboxNames(shares[0].path, vpath);
    } else {
      var seg := TrimStartChar(vpath, '/');
      TrimStartHead(vpath);
      var cut := SplitOnce(seg, '/');
      var name := if cut.None? then seg else cut.value.left;
      var rest := if cut.None? then "" else cut.value.right;
      assert name != "" && '/' !in name;
      assert ("/" + name)[1..] == name;
      FindShareIn(shares, name);
      SandboxNames(FindShare(shares, name).value.path, rest);
    }
  }

  lemma {:induction false} TrimStartHead(s: string)
    ensures TrimStartChar(s, '/') != "" ==> TrimStartChar(s, '/')[0] != '/'
  {
    if s != [] && s[0] == '/' {
      TrimStartHead(s[1..]);
    }
  }

  /** With several shares the first component names the share. */
  lemma {:induction false} ResolveByName(shares: seq<Share>, vpath: string, name: string, rest: string)
    requires |shares| > 1 && name != "" && '/' !in name
    requires TrimStartChar(vpath, '/') == if rest == "" then name else name + "/" + rest
    ensures ResolveIn(shares, vpath) == ResolveNamed(shares, name, rest)
  {
    hide ResolveNamed;
    if rest == "" {
      assert forall k :: 0 <= k < |name| ==> name[k] in name;
      assert SplitOnce(name, '/') == None;
    } else {
      SplitOnceConcat(name, '/', rest);
    }
  }

  /** Resolving the virtual text of rel inside a share is the sandbox applied to rel. */
  lemma {:induction false} ResolveBelow(shares: seq<Share>, base: string, prefix: string, rel: string)
    requires shares != [] && SharePrefix(shares, base, prefix)
    ensures ResolveIn(shares, VirtualText(prefix, rel)) ==
            if NoParentDir(Names(rel))
            then Some(At(JoinPath(base, TrimStartChar(rel, '/')), base, prefix))
            else None
  {
    hide Names, JoinPath, FindShare;
    NamesTrimStart(rel);
    if |shares| == 1 {
      assert ("/" + rel)[1..] == rel && "/" + "" == "/";
      assert TrimStartChar("/" + rel, '/') == TrimStartChar(rel, '/');
    } else {
      VirtualTextNamesShare(shares, prefix, rel);
      assert prefix == "/" + prefix[1..];
    }
  }

  lemma {:induction false} VirtualTextNamesShare(shares: seq<Share>, prefix: string, rel: string)
    requires |shares| > 1 && |prefix| > 1 && prefix[0] == '/' && '/' !in prefix[1..]
    ensures ResolveIn(shares, VirtualText(prefix, rel)) == ResolveNamed(shares, prefix[1..], rel)
  {
    hide ResolveIn, ResolveNamed;
    var name := prefix[1..];
    var seg := if rel == "" then name else name + "/" + rel;
    assert VirtualText(prefix, rel)[1..] == seg && name[0] in name;
    ResolveByName(shares, VirtualText(prefix, rel), name, rel);
  }

  // ----- which share a path names -------------------------------------------------------------------------

  /** The entry at rest inside the share at base, or nothing when rest tries to leave. */
  predicate SandboxedAt(r: Option<Resolved>, base: string, prefix: string, rest: string) {
    if ".." in Names(rest) then r == None
    else
      && r.Some? && r.value.At? && r.value.base == base && r.value.prefix == prefix
      && Names(r.value.local) == Names(base) + Names(rest)
      && (Absolute(base) ==> Absolute(r.value.local))
  }

  /** With one share every path lies in it. */
  lemma {:induction false} ResolveInOneShare(shares: seq<Share>, vpath: string)
    ensures shares == [] ==> ResolveIn(shares, vpath) == None
    ensures |shares| == 1 ==> SandboxedAt(ResolveIn(shares, vpath), shares[0].path, "", vpath)
  {
    hide Names;
    if |shares| == 1 {
      SandboxNames(shares[0].path, vpath);
    }
  }

  /** With several shares a path is slashes, a name and a rest. Slashes alone list the shares in order; a name
      no share has gives nothing; otherwise the first share of that name is the one that is entered. */
  lemma {:induction false} ResolveByFirstName(shares: seq<Share>, vpath: string)
    returns (lead: string, name: string, rest: string)
    requires |shares| > 1
    ensures vpath == lead + name + rest && AllOf(lead, '/') && '/' !in name
    ensures (name == "" ==> rest == "") && (rest != "" ==> rest[0] == '/')
    ensures name == "" ==>
              && ResolveIn(shares, vpath).Some? && ResolveIn(shares, vpath).value.Root?
              && |ResolveIn(shares, vpath).value.names| == |shares|
              && forall i :: 0 <= i < |shares| ==> ResolveIn(shares, vpath).value.names[i] == shares[i].name
    ensures name != "" && (forall s :: s in shares ==> s.name != name) ==> ResolveIn(shares, vpath) == None
    ensures name != "" ==>
              forall k :: IsFirst(shares, k, name) ==>
                SandboxedAt(ResolveIn(shares, vpath), shares[k].path, "/" + name, rest)
  {
    hide Names, FindShare, SandboxedAt, ResolveNamed, ResolveIn, SplitOnce;
    lead := TrimStartCharTakes(vpath, '/');
    var seg := TrimStartChar(vpath, '/');
    var inner;
    name, inner, rest := FirstName(seg);
    assert vpath == lead + name + rest;
    RootOrNamed(shares, vpath, seg, name, inner);
    ShareNamesInOrder(shares);
    if name != "" {
      NamesSlash(inner);
      NamedShare(shares, name, inner, rest);
    }
  }

  /** The name in front, and the rest without and with the slash. */
  lemma {:induction false} FirstName(seg: string) returns (name: string, inner: string, rest: string)
    ensures seg == name + rest && '/' !in name && rest == (if SplitOnce(seg, '/').None? then "" else "/" + inner)
    ensures var cut := SplitOnce(seg, '/');
            if cut.None? then name == seg && inner == "" else name == cut.value.left && inner == cut.value.right
  {
    SplitOnceParts(seg, '/');
    var cut := SplitOnce(seg, '/');
    if cut.None? {
      name, inner, rest := seg, "", "";
    } else {
      name, inner := cut.value.left, cut.value.right;
      rest := "/" + inner;
      assert seg == name + "/" + inner;
    }
  }

  lemma {:induction false} RootOrNamed(shares: seq<Share>, vpath: string, seg: string, name: string, inner: string)
    requires |shares| > 1 && seg == TrimStartChar(vpath, '/') && (seg != "" ==> seg[0] != '/')
    requires var cut := SplitOnce(seg, '/');
             if cut.None? then name == seg && inner == "" else name == cut.value.left && inner == cut.value.right
    ensures name == "" <==> seg == ""
    ensures ResolveIn(shares, vpath) ==
            if name == "" then Some(Root(ShareNames(shares))) else ResolveNamed(shares, name, inner)
  {
    hide ResolveNamed;
    assert SplitOnce("", '/') == None;
  }

  lemma {:induction false} NamedShare(shares: seq<Share>, name: string, inner: string, rest: string)
    requires Names(inner) == Names(rest)
    ensures (forall s :: s in shares ==> s.name != name) ==> ResolveNamed(shares, name, inner) == None
    ensures forall k :: IsFirst(shares, k, name) ==>
              SandboxedAt(ResolveNamed(shares, name, inner), shares[k].path, "/" + name, rest)
  {
    hide Names, FindShare;
    FindShareFirst(shares, name);
    forall k | IsFirst(shares, k, name)
      ensures SandboxedAt(ResolveNamed(shares, name, inner), shares[k].path, "/" + name, rest)
    {
      assert shares[k] in shares;
      SandboxNames(shares[k].path, inner);
    }
  }

  // ----- the texts of paths -----------------------------------------------------------------------------------

  /** Which segments are components: all but empty ones and ".", in particular "..". */
  lemma {:induction false} NamesLaws(a: string, b: string)
    ensures Names(a + "//" + b) == Names(a) + Names(b)
    ensures Names(a + "/./" + b) == Names(a) + Names(b)
    ensures Names(a + "/../" + b) == Names(a) + [".."] + Names(b)
    ensures Names("") == [] && Names(".") == [] && Names("..") == [".."]
  {
    hide Names;
    NamesEmpty();
    NamesOf(".");
    NamesOf("..");
    NamesBetween(a, "", b);
    NamesBetween(a, ".", b);
    NamesBetween(a, "..", b);
    assert a + "/" + "" + "/" + b == a + "//" + b;
    assert a + "/" + "." + "/" + b == a + "/./" + b;
    assert a + "/" + ".." + "/" + b == a + "/../" + b;
    assert Names(a) + [] == Names(a);
  }

  lemma {:induction false} NamesBetween(a: string, middle: string, b: string)
    ensures Names(a + "/" + middle + "/" + b) == Names(a) + Names(middle) + Names(b)
  {
    hide Names;
    NamesConcat(a + "/" + middle, b);
    NamesConcat(a, middle);
  }

  lemma {:induction false} NamesOf(seg: string)
    requires '/' !in seg
    ensures Names(seg) == if seg == "" || seg == "." then [] else [seg]
  {
    SplitWhole(seg, '/');
    assert [seg][0] == seg && [seg][1..] == [];
    assert Significant([]) == [];
    assert Significant([seg]) == (if Noise(seg) then [] else [seg]) + Significant([seg][1..]);
  }

  /** Proper names joined by slashes are read back. */
  lemma {:induction false} NamesReadBack(names: seq<string>)
    requires forall n :: n in names ==> n != "" && n != "." && '/' !in n
    ensures Names(Join(names, '/')) == names
  {
    NamesOfJoin(names);
    AllSignificant(names);
  }

  lemma {:induction false} AllSignificant(names: seq<string>)
    requires forall n :: n in names ==> n != "" && n != "."
    ensures Significant(names) == names
  {
    if names != [] {
      assert names[0] in names && forall n :: n in names[1..] ==> n in names;
      AllSignificant(names[1..]);
      assert names == [names[0]] + names[1..];
    }
  }

  /** A virtual path starts with a slash, has no superfluous one, and names the prefix and then the rest. */
  lemma {:induction false} VirtualTextShape(prefix: string, rel: string)
    requires prefix == "" || prefix[0] == '/'
    ensures var text := VirtualText(prefix, rel);
            && text != "" && text[0] == '/'
            && |text| == |prefix| + |rel| + (if prefix == "" || rel != "" then 1 else 0)
            && Names(text) == Names(prefix) + Names(rel)
  {
    hide Names;
    NamesEmpty();
    NamesSlash("");
    NamesSlash(rel);
    NamesConcat(prefix, rel);
    assert "/" + "" == "/";
  }

  // ----- the round trip -------------------------------------------------------------------------------

  /** r is an entry of the share with this base and prefix, at the given components below it. */
  predicate Denotes(r: Option<Resolved>, base: string, prefix: string, below: seq<string>) {
    && r.Some? && r.value.At? && r.value.base == base && r.value.prefix == prefix
    && Absolute(r.value.local) && Names(r.value.local) == Names(base) + below
  }

  /** The components of an entry below its share. */
  function Below(r: Resolved): seq<string>
    requires r.At?
  {
    if Names(r.base) <= Names(r.local) then Names(r.local)[|Names(r.base)|..] else []
  }

  predicate NoBackslash(names: seq<string>) {
    forall n :: n in names ==> '\\' !in n
  }

  /** Resolving an entry's virtual parent gives the entry's parent in the same share, or the share
      root for the root itself, exactly when no component above the entry contains a backslash. */
  lemma {:induction false} ParentRoundTrip(shares: seq<Share>, vpath: string, r: Resolved)
    requires AbsoluteShares(shares)
    requires ResolveIn(shares, vpath) == Some(r) && r.At?
    ensures NoBackslash(Up(Below(r))) <==>
            Denotes(ResolveIn(shares, VirtualParent(r.local, r.base, r.prefix)),
                    r.base, r.prefix, Up(Below(r)))
  {
    hide Names, ResolveIn, NoBackslash, ParentRel;
    ResolvedInsideShare(shares, vpath);
    var text := ParentRel(r.local, r.base);
    ParentRelNames(r.local, r.base, Below(r));
    ReplaceKeepsNames(text);
    ResolveBelow(shares, r.base, r.prefix, Replace(text, '\\', '/'));
    SandboxNames(r.base, Replace(text, '\\', '/'));
    Cancel(Names(r.base), Names(Replace(text, '\\', '/')), Up(Below(r)));
  }

  /** Turning backslashes into slashes keeps the components only when there was no backslash. */
  lemma {:induction false} ReplaceKeepsNames(text: string)
    ensures NoBackslash(Names(text)) <==> Names(Replace(text, '\\', '/')) == Names(text)
  {
    var rel := Replace(text, '\\', '/');
    if NoBackslash(Names(text)) {
      BackslashInText(text);
      ReplaceNothing(text, '\\', '/');
    } else {
      var n :| n in Names(text) && '\\' in n;
      SignificantMembers(Split(rel, '/'), n);
      SplitSubset(rel, n, '\\');
    }
  }

  lemma {:induction false} Cancel(a: seq<string>, b: seq<string>, c: seq<string>)
    ensures a + b == a + c ==> b == c
  {
    assert (a + b)[|a|..] == b && (a + c)[|a|..] == c;
  }

  /** Segments of a text hold only characters of the text. */
  lemma {:induction false} SplitSubset(s: string, part: string, c: char)
    ensures part in Split(s, '/') && c in part ==> c in s
    decreases |s|
  {
    var i := IndexOf(s, '/');
    if i < |s| {
      SplitSubset(s[i + 1..], part, c);
    }
  }

  lemma {:induction false} BackslashInText(s: string)
    requires NoBackslash(Names(s))
    ensures '\\' !in s
    decreases |s|
  {
    hide Split, Significant;
    var i := IndexOf(s, '/');
    var head := s[..i];
    SplitWhole(head, '/');
    SignificantMembers([head], head);
    if i < |s| {
      var rest := s[i + 1..];
      NamesConcat(head, rest);
      assert s == head + "/" + rest;
      assert forall n :: n in Names(rest) ==> n in Names(s);
      assert head in Names(head) ==> head in Names(s);
      BackslashInText(rest);
    } else {
      assert head == s;
    }
  }

  /** n steps of "go to the virtual parent and resolve it again". */
  function Climb(shares: seq<Share>, r: Option<Resolved>, n: nat): Option<Resolved>
    decreases n
  {
    if n == 0 || r.None? || r.value.Root? then r
    else
      Climb(shares, ResolveIn(shares, VirtualParent(r.value.local, r.value.base, r.value.prefix)), n - 1)
  }

  function DropLast(names: seq<string>, n: nat): seq<string> {
    if n >= |names| then [] else names[..|names| - n]
  }

  /** Climbing from any resolved entry loses one component a step, so the share root is reached
      after exactly as many steps as there are components below it, and never left. */
  lemma {:induction false} ClimbToShareRoot(shares: seq<Share>, vpath: string, r: Resolved, n: nat)
    requires AbsoluteShares(shares)
    requires ResolveIn(shares, vpath) == Some(r) && r.At? && NoBackslash(Up(Below(r)))
    ensures Denotes(Climb(shares, Some(r), n), r.base, r.prefix, DropLast(Below(r), n))
    decreases n
  {
    hide Names, ResolveIn, VirtualParent;
    ResolvedInsideShare(shares, vpath);
    if n > 0 {
      ParentRoundTrip(shares, vpath, r);
      var parent := VirtualParent(r.local, r.base, r.prefix);
      var up := ResolveIn(shares, parent).value;
      Cancel(Names(r.base), Below(up), Up(Below(r)));
      ClimbToShareRoot(shares, parent, up, n - 1);
      assert DropLast(Up(Below(r)), n - 1) == DropLast(Below(r), n);
    }
  }

  /** The climb takes exactly the right steps for every number of them, if and only if no component above
      the entry contains a backslash. */
  lemma {:induction false} ClimbExactly(shares: seq<Share>, vpath: string, r: Resolved)
    requires AbsoluteShares(shares)
    requires ResolveIn(shares, vpath) == Some(r) && r.At?
    ensures NoBackslash(Up(Below(r))) <==>
            forall n: nat :: Denotes(Climb(shares, Some(r), n), r.base, r.prefix, DropLast(Below(r), n))
  {
    hide Names, ResolveIn, VirtualParent, NoBackslash, Denotes;
    if NoBackslash(Up(Below(r))) {
      forall n: nat ensures Denotes(Climb(shares, Some(r), n), r.base, r.prefix, DropLast(Below(r), n)) {
        ClimbToShareRoot(shares, vpath, r, n);
      }
    } else {
      ParentRoundTrip(shares, vpath, r);
      var up := ResolveIn(shares, VirtualParent(r.local, r.base, r.prefix));
      assert Climb(shares, Some(r), 1) == Climb(shares, up, 0) == up;
      assert DropLast(Below(r), 1) == Up(Below(r));
    }
  }

  // ----- splitting a path on the bridge and joining it on the peer ---------------------------------------

  datatype Location = Location(parent: string, name: string)

  /** The bridge's split of a path at its last slash. */
  function SplitLast(path: string): Location {
    var i := AfterLast(path, '/');
    if i == 0 then Location("/", path)
    else Location(if i == 1 then "/" else path[..i - 1], path[i..])
  }

  /** The peer accepts a name for a new entry. */
  predicate AcceptedName(name: string) {
    && (forall i {:trigger name[i]} :: 0 <= i < |name| - 1 ==> !(name[i] == '.' && name[i + 1] == '.'))
    && '/' !in name && '\\' !in name
  }

  /** The two halves of every path: a name without slashes, and what stands before the slash in front of it;
      the root for a path without a slash or with none but the first character. */
  lemma {:induction false} SplitLastHalves(path: string)
    ensures var Location(parent, name) := SplitLast(path);
            && '/' !in name
            && (parent + "/" + name == path || (parent == "/" && (path == "/" + name || path == name)))
            && (parent + "/" + name == path ==> parent != "")
  {
    var i := AfterLast(path, '/');
    assert path == path[..i] + path[i..];
    if i > 1 {
      assert path == path[..i - 1] + "/" + path[i..];
    } else if i == 1 {
      assert path[..1] == "/";
    }
  }

  /** A name is accepted if and only if it has no two dots in a row, no slash and no backslash. */
  lemma {:induction false} AcceptedExactly(name: string)
    ensures AcceptedName(name) <==>
            forall a: string, b: string :: name != a + ".." + b && name != a + "/" + b && name != a + "\\" + b
  {
    if AcceptedName(name) {
      forall a: string, b: string
        ensures name != a + ".." + b && name != a + "/" + b && name != a + "\\" + b
      {
        AcceptedParts(name, a, b);
      }
    } else if '/' in name {
      var i :| 0 <= i < |name| && name[i] == '/';
      assert name == name[..i] + "/" + name[i + 1..];
    } else if '\\' in name {
      var i :| 0 <= i < |name| && name[i] == '\\';
      assert name == name[..i] + "\\" + name[i + 1..];
    } else {
      var i :| 0 <= i < |name| - 1 && name[i] == '.' && name[i + 1] == '.';
      assert name == name[..i] + ".." + name[i + 2..];
    }
  }

  lemma {:induction false} AcceptedParts(name: string, a: string, b: string)
    requires AcceptedName(name)
    ensures name != a + ".." + b && name != a + "/" + b && name != a + "\\" + b
  {
    var x, y, z := a + ".." + b, a + "/" + b, a + "\\" + b;
    assert x[|a|] == '.' && x[|a| + 1] == '.' && |a| < |x| - 1;
    assert y[|a|] == '/' && z[|a|] == '\\';
  }

  /** For every path: when the parent half resolves inside a share and the name half is accepted, the
      entry made by appending the name is the one the whole path resolves to. */
  lemma {:induction false} SplitAgreesWithWhole(shares: seq<Share>, path: string)
    requires AbsoluteShares(shares)
    requires ResolveIn(shares, SplitLast(path).parent).Some?
    requires ResolveIn(shares, SplitLast(path).parent).value.At?
    requires AcceptedName(SplitLast(path).name)
    ensures var At(dir, base, prefix) := ResolveIn(shares, SplitLast(path).parent).value;
            && ResolveIn(shares, path).Some? && ResolveIn(shares, path).value.At?
            && ResolveIn(shares, path).value.base == base
            && ResolveIn(shares, path).value.prefix == prefix
            && Names(JoinPath(dir, SplitLast(path).name)) == Names(ResolveIn(shares, path).value.local)
  {
    hide Names;
    var Location(parent, name) := SplitLast(path);
    AcceptedNotParentDir(name);
    NamesJoinPath(ResolveIn(shares, parent).value.local, name);
    if |shares| == 1 {
      SingleShareAppend(shares, path);
    } else {
      assert TrimStartChar("/", '/') == "";
      assert parent != "/";
      assert path == parent + "/" + name;
      MultiShareAppend(shares, parent, name);
    }
  }

  lemma {:induction false} SingleShareAppend(shares: seq<Share>, path: string)
    requires |shares| == 1
    requires ResolveIn(shares, SplitLast(path).parent).Some?
    requires NoParentDir(Names(SplitLast(path).name))
    ensures var At(dir, base, prefix) := ResolveIn(shares, SplitLast(path).parent).value;
            LiesAt(ResolveIn(shares, path), base, prefix, Names(dir) + Names(SplitLast(path).name))
  {
    hide Names, JoinPath;
    var Location(parent, name) := SplitLast(path);
    WholeNames(path);
    SandboxNames(shares[0].path, parent);
    SandboxNames(shares[0].path, path);
  }

  lemma {:induction false} AcceptedNotParentDir(name: string)
    requires AcceptedName(name)
    ensures NoParentDir(Names(name))
  {
    SplitWhole(name, '/');
    SignificantMembers([name], "..");
    assert |name| == 2 ==> !(name[0] == '.' && name[1] == '.');
  }

  /** The components of a path are those of its two halves. */
  lemma {:induction false} WholeNames(path: string)
    ensures Names(path) == Names(SplitLast(path).parent) + Names(SplitLast(path).name)
  {
    hide Names, AfterLast;
    var i := AfterLast(path, '/');
    var name := path[i..];
    NamesSlash("");
    NamesSlash(name);
    NamesEmpty();
    assert "/" + "" == "/";
    if i == 0 {
      assert path == name;
    } else if i == 1 {
      assert path == "/" + name;
    } else {
      NamesConcat(path[..i - 1], name);
      assert path == path[..i - 1] + "/" + name;
    }
  }

  lemma {:induction false} TrimStartAppend(a: string, b: string)
    requires TrimStartChar(a, '/') != ""
    ensures TrimStartChar(a + b, '/') == TrimStartChar(a, '/') + b
  {
    if a[0] == '/' {
      TrimStartAppend(a[1..], b);
      assert (a + b)[1..] == a[1..] + b;
    }
  }

  lemma {:induction false} MultiShareAppend(shares: seq<Share>, parent: string, name: string)
    requires |shares| > 1
    requires ResolveIn(shares, parent).Some? && ResolveIn(shares, parent).value.At?
    requires '/' !in name && NoParentDir(Names(name))
    ensures var At(dir, base, prefix) := ResolveIn(shares, parent).value;
            LiesAt(ResolveIn(shares, parent + "/" + name), base, prefix, Names(dir) + Names(name))
  {
    hide Names, ResolveAndSandbox;
    TrimStartAppend(parent, "/" + name);
    assert parent + "/" + name == parent + ("/" + name);
    var seg := TrimStartChar(parent, '/');
    var cut := SplitOnce(seg, '/');
    if cut.None? {
      MultiShareJoin(shares, parent + "/" + name, seg, name);
      AppendInShare(FindShare(shares, seg).value.path, "", name);
    } else {
      assert seg + ("/" + name) == cut.value.left + "/" + (cut.value.right + "/" + name);
      MultiShareJoin(shares, parent + "/" + name, cut.value.left, cut.value.right + "/" + name);
      AppendInShare(FindShare(shares, cut.value.left).value.path, cut.value.right, name);
    }
  }

  /** ResolveByName with the separator present even before an empty rest. */
  lemma {:induction false} MultiShareJoin(shares: seq<Share>, vpath: string, share: string, rest: string)
    requires |shares| > 1 && '/' !in share
    requires TrimStartChar(vpath, '/') == share + ("/" + rest)
    ensures ResolveIn(shares, vpath) == ResolveNamed(shares, share, rest)
  {
    hide ResolveNamed;
    SplitOnceConcat(share, '/', rest);
    assert share + ("/" + rest) == share + "/" + rest;
  }

  lemma {:induction false} NamesEmpty()
    ensures Names("") == []
  {
  }

  /** Appending a name to a path inside a share, with or without a separator before it. */
  lemma {:induction false} AppendInShare(base: string, rest: string, name: string)
    requires ResolveAndSandbox(base, rest).Some? && NoParentDir(Names(name))
    ensures var whole := ResolveAndSandbox(base, rest + "/" + name);
            && whole.Some?
            && Names(whole.value) == Names(ResolveAndSandbox(base, rest).value) + Names(name)
    ensures rest == "" ==>
              && ResolveAndSandbox(base, name).Some?
              && Names(ResolveAndSandbox(base, name).value)
                 == Names(ResolveAndSandbox(base, rest).value) + Names(name)
  {
    hide Names, JoinPath;
    SandboxNames(base, rest);
    SandboxNames(base, rest + "/" + name);
    SandboxNames(base, name);
    NamesConcat(rest, name);
    NamesEmpty();
  }

  predicate LiesAt(r: Option<Resolved>, base: string, prefix: string, names: seq<string>) {
    && r.Some? && r.value.At? && r.value.base == base && r.value.prefix == prefix
    && Names(r.value.local) == names
  }
}
