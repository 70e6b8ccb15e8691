/** The bookmark a mounted drive gets in a desktop's places file: string surgery on an XBEL text
    (web-davserver/src/lib.rs 285-337). */
module Xbel {
  import opened Options

  // ----- searching ---------------------------------------------------------------------------------------

  predicate OccursAt(s: string, pat: string, i: nat) {
    i + |pat| <= |s| && s[i..i + |pat|] == pat
  }

  /** str::find: the first occurrence. */
  function FindFrom(s: string, pat: string, from: nat): (r: Option<nat>)
    requires from <= |s|
    ensures r.None? ==> forall k :: from <= k <= |s| ==> !OccursAt(s, pat, k)
    ensures r.Some? ==> from <= r.value <= |s| && OccursAt(s, pat, r.value)
    ensures r.Some? ==> forall k :: from <= k < r.value ==> !OccursAt(s, pat, k)
    decreases |s| - from
  {
    if OccursAt(s, pat, from) then Some(from)
    else if from == |s| then None
    else FindFrom(s, pat, from + 1)
  }

  function Find(s: string, pat: string): Option<nat> {
    FindFrom(s, pat, 0)
  }

  /** str::rfind: the last occurrence. */
  function RFindFrom(s: string, pat: string, upto: nat): (r: Option<nat>)
    requires upto <= |s|
    ensures r.None? ==> forall k :: 0 <= k <= upto ==> !OccursAt(s, pat, k)
    ensures r.Some? ==> r.value <= upto && OccursAt(s, pat, r.value)
    ensures r.Some? ==> forall k :: r.value < k <= upto ==> !OccursAt(s, pat, k)
  {
    if OccursAt(s, pat, upto) then Some(upto)
    else if upto == 0 then None
    else RFindFrom(s, pat, upto - 1)
  }

  function RFind(s: string, pat: string): (r: Option<nat>)
    ensures r.Some? ==> r.value <= |s|
  {
    RFindFrom(s, pat, |s|)
  }

  // ----- the texts -----------------------------------------------------------------------------------------

  function Digit(n: nat): char
    requires n < 10
  {
    ((n + ('0' as int)) as char)
  }

  function Dec(n: nat): (s: string)
    ensures s != ""
  {
    if n < 10 then [Digit(n)] else Dec(n / 10) + [Digit(n % 10)]
  }

  const OPEN := "<bookmark"
  const CLOSE := "</bookmark>"
  const END := "</xbel>"

  function Href(port: nat): string {
    "localhost:" + (Dec(port) + "/")
  }

  /** The part of the address after the port; a secret makes it a sub-path. */
  function SecretPath(secret: Option<string>): string {
    match secret case None => "" case Some(s) => s + "/"
  }

  function DavUri(port: nat, secret: Option<string>): string {
    "dav://" + (Href(port) + SecretPath(secret))
  }

  function Title(port: nat): string {
    "\">\n  <title>" + ("NodeInNet (" + (Dec(port) + (")</title>\n" + "  <info>\n")))
  }

  const METADATA := "   <metadata " + ("owner=\"http://" + "freedesktop.org\">\n")
  const ICON := "    <bookmark:icon " + ("name=\"folder-" + "network\"/>\n")
  const INFO := METADATA + (ICON + ("   </metadata>\n" + ("  </info>\n" + " ")))

  /** The element without the space before it and the line break after it. */
  function Element(port: nat, secret: Option<string>): string {
    "<bookmark href=\"" + (DavUri(port, secret) + ((Title(port) + INFO) + CLOSE))
  }

  function Block(port: nat, secret: Option<string>): string {
    " " + (Element(port, secret) + "\n")
  }

  // ----- the edits ------------------------------------------------------------------------------------------

  function RemoveEntry(content: string, port: nat): string {
    match Find(content, Href(port))
    case None => content
    case Some(hpos) =>
      match RFind(content[..hpos], OPEN)
      case None => content
      case Some(start) =>
        match Find(content[start..], CLOSE)
        case None => content
        case Some(rel) => content[..start] + content[start + rel + |CLOSE|..]
  }

  function Edit(content: string, port: nat, add: bool, secret: Option<string>): string {
    var cleared := RemoveEntry(content, port);
    if !add then cleared
    else
      match RFind(cleared, END)
      case None => cleared
      case Some(pos) => cleared[..pos] + Block(port, secret) + cleared[pos..]
  }

  /** The outcome of writing the file back. */
  datatype Write = Written | Failed(left: Option<string>)

  /** The places file; None when it cannot be read. */
  class PlacesFile {
    var content: Option<string>

    /** A failed write is not noticed; it leaves what it leaves. */
    method SetPlace(port: nat, add: bool, secret: Option<string>, write: Write)
      modifies this
      ensures content == if old(content).None? then None
                         else if write.Written? then Some(Edit(old(content).value, port, add, secret))
                         else write.left
    {
      if content.None? {
        return;
      }
      var text := RemoveEntry(content.value, port);
      if add {
        var pos := RFind(text, END);
        if pos.Some? {
          text := text[..pos.value] + Block(port, secret) + text[pos.value..];
        }
      }
      content := if write.Written? then Some(text) else write.left;
    }
  }

  // ----- characters that cannot straddle ----------------------------------------------------------------------

  /** c is never directly followed by d. */
  predicate Apart(s: string, c: char, d: char) {
    forall i :: 0 <= i < |s| - 1 ==> !(s[i] == c && s[i + 1] == d)
  }

  predicate OnlyDigits(s: string) {
    forall i :: 0 <= i < |s| ==> '0' <= s[i] <= '9'
  }

  lemma {:induction false} DecDigits(n: nat)
    ensures OnlyDigits(Dec(n))
  {
    if n >= 10 {
      DecDigits(n / 10);
    }
  }

  lemma {:induction false} DecInjective(m: nat, n: nat)
    requires Dec(m) == Dec(n)
    ensures m == n
  {
    var s := Dec(m);
    assert m >= 10 ==> s[|s| - 1] == Digit(m % 10) && s[..|s| - 1] == Dec(m / 10);
    assert n >= 10 ==> s[|s| - 1] == Digit(n % 10) && s[..|s| - 1] == Dec(n / 10);
    if m >= 10 && n >= 10 {
      DecInjective(m / 10, n / 10);
    }
  }

  /** Secrets are the hexadecimal digits of an identifier. */
  predicate IsHex(c: char) {
    '0' <= c <= '9' || 'a' <= c <= 'f'
  }

  predicate HexSecret(secret: Option<string>) {
    secret.Some? ==> forall i :: 0 <= i < |secret.value| ==> IsHex(secret.value[i])
  }

  /** The number a decimal text spells. */
  function DecValue(s: string): int {
    if s == "" then 0 else 10 * DecValue(s[..|s| - 1]) + (s[|s| - 1] as int - '0' as int)
  }

  /** A printed number is read back, in digits alone and without a leading zero. */
  lemma {:induction false} DecReadsBack(n: nat)
    ensures DecValue(Dec(n)) == n && OnlyDigits(Dec(n))
    ensures n > 0 ==> Dec(n)[0] != '0'
    ensures n == 0 ==> Dec(n) == "0"
  {
    DecDigits(n);
    var s := Dec(n);
    if n >= 10 {
      DecReadsBack(n / 10);
      assert s[..|s| - 1] == Dec(n / 10);
    } else {
      assert s[..|s| - 1] == "";
    }
  }

  /** The address of a mounted drive, without and with a secret. */
  lemma {:induction false} AddressText(port: nat, secret: string)
    ensures DavUri(port, None) == "dav://localhost:" + Dec(port) + "/"
    ensures DavUri(port, Some(secret)) == "dav://localhost:" + Dec(port) + "/" + secret + "/"
  {
    Assoc("dav://", "localhost:", Dec(port) + "/");
    assert "dav://" + "localhost:" == "dav://localhost:";
    Assoc("dav://localhost:", Dec(port), "/");
    Assoc("dav://", Href(port), secret + "/");
    Assoc("dav://localhost:" + Dec(port) + "/", secret, "/");
    assert Href(port) + "" == Href(port);
  }

  /** The pieces one after the other. */
  function Together(parts: seq<string>): string {
    if parts == [] then "" else if |parts| == 1 then parts[0] else parts[0] + Together(parts[1..])
  }

  lemma {:induction false} TogetherConcat(x: seq<string>, y: seq<string>)
    requires x != [] && y != []
    ensures Together(x + y) == Together(x) + Together(y)
  {
    if |x| == 1 {
      assert (x + y)[1..] == y;
    } else {
      assert (x + y)[1..] == x[1..] + y;
      TogetherConcat(x[1..], y);
      Assoc(x[0], Together(x[1..]), Together(y));
    }
  }

  lemma {:induction false} TogetherThree(a: string, b: string, c: string)
    ensures Together([a]) == a && Together([a, b]) == a + b && Together([a, b, c]) == a + (b + c)
  {
    assert [a, b][1..] == [b] && [a, b, c][1..] == [b, c] && [b, c][1..] == [c];
    assert Together([b, c]) == b + Together([c]);
    assert Together([a, b, c]) == a + Together([b, c]);
  }

  lemma {:induction false} TogetherFive(a: string, b: string, c: string, d: string, e: string)
    ensures Together([a, b, c, d, e]) == a + (b + (c + (d + e)))
  {
    TogetherThree(c, d, e);
    assert [a, b, c, d, e][1..] == [b, c, d, e] && [b, c, d, e][1..] == [c, d, e];
  }

  /** The pieces of the inserted text. */
  lemma {:induction false} BlockText(port: nat, secret: Option<string>)
    ensures Block(port, secret) ==
            Together([" ", "<bookmark href=\"", DavUri(port, secret)]
                     + ["\">\n  <title>", "NodeInNet (", Dec(port), ")</title>\n", "  <info>\n"]
                     + ["   <metadata ", "owner=\"http://", "freedesktop.org\">\n"]
                     + ["    <bookmark:icon ", "name=\"folder-", "network\"/>\n"]
                     + ["   </metadata>\n", "  </info>\n", " "] + ["</bookmark>", "\n"])
  {
    hide DavUri, Dec, Together;
    BlockPieces(" ", "<bookmark href=\"", DavUri(port, secret), "\">\n  <title>", "NodeInNet (", Dec(port),
                ")</title>\n", "  <info>\n", METADATA, ICON, "   </metadata>\n" + ("  </info>\n" + " "),
                "</bookmark>", "\n");
    TogetherThree("   <metadata ", "owner=\"http://", "freedesktop.org\">\n");
    TogetherThree("    <bookmark:icon ", "name=\"folder-", "network\"/>\n");
    TogetherThree("   </metadata>\n", "  </info>\n", " ");
    SixParts([" ", "<bookmark href=\"", DavUri(port, secret)],
             ["\">\n  <title>", "NodeInNet (", Dec(port), ")</title>\n", "  <info>\n"],
             ["   <metadata ", "owner=\"http://", "freedesktop.org\">\n"],
             ["    <bookmark:icon ", "name=\"folder-", "network\"/>\n"],
             ["   </metadata>\n", "  </info>\n", " "], ["</bookmark>", "\n"]);
  }

  lemma {:induction false} SixParts(a: seq<string>, b: seq<string>, c: seq<string>, d: seq<string>, e: seq<string>,
                                    f: seq<string>)
    requires a != [] && b != [] && c != [] && d != [] && e != [] && f != []
    ensures Together(a + b + c + d + e + f)
         == Together(a) + Together(b) + Together(c) + Together(d) + Together(e) + Together(f)
  {
    TogetherConcat(a + b + c + d + e, f);
    TogetherConcat(a + b + c + d, e);
    TogetherConcat(a + b + c, d);
    TogetherConcat(a + b, c);
    TogetherConcat(a, b);
  }

  /** The nesting of the block's concatenations against the flat order of its pieces. */
  lemma {:induction false} BlockPieces(a: string, b: string, u: string, t: string, n: string, d: string, i: string,
                                       j: string, m: string, k: string, e: string, c: string, z: string)
    ensures a + ((b + (u + (((t + (n + (d + (i + j)))) + (m + (k + e))) + c))) + z)
         == Together([a, b, u]) + Together([t, n, d, i, j]) + m + k + e + Together([c, z])
  {
    TogetherThree(a, b, u);
    TogetherFive(t, n, d, i, j);
    TogetherThree(c, z, z);
    var title := t + (n + (d + (i + j)));
    var x, y := title + (m + (k + e)), a + (b + u);
    Assoc(b, u, x + c);
    Assoc(b + u, x, c);
    Assoc((b + u) + x, c, z);
    Assoc(a, (b + u) + x, c + z);
    Assoc(a, b + u, x);
    Assoc(y, title, m + (k + e));
    Assoc(y + title, m, k + e);
    Assoc(y + title + m, k, e);
  }

  // ----- the fixed texts -------------------------------------------------------------------------------------

  /** 'l' is never followed by 'h', nor 'k' by '>'. */
  predicate Plain(s: string) {
    Apart(s, 'l', 'h') && Apart(s, 'k', '>')
  }

  lemma {:induction false} PlainConcat(a: string, b: string)
    requires Plain(a) && Plain(b)
    requires a != "" && b != "" ==> !(a[|a| - 1] == 'l' && b[0] == 'h') && !(a[|a| - 1] == 'k' && b[0] == '>')
    ensures Plain(a + b)
  {
  }

  lemma {:induction false} MetadataPlain()
    ensures Plain(METADATA) && METADATA != "" && METADATA[0] == ' '
  {
    var a, b, c := "   <metadata ", "owner=\"http://", "freedesktop.org\">\n";
    assert Plain(a);
    assert Plain(b);
    assert Plain(c);
    PlainConcat(b, c);
    PlainConcat(a, b + c);
  }

  lemma {:induction false} IconPlain()
    ensures Plain(ICON) && ICON != "" && ICON[0] == ' '
  {
    var a, b, c := "    <bookmark:icon ", "name=\"folder-", "network\"/>\n";
    assert Plain(a);
    assert Plain(b);
    assert Plain(c);
    PlainConcat(b, c);
    PlainConcat(a, b + c);
  }

  lemma {:induction false} InfoPlain()
    ensures Plain(INFO) && INFO != "" && INFO[0] == ' '
  {
    hide Plain;
    var a, b, c := "   </metadata>\n", "  </info>\n", " ";
    assert Plain(a) by { PlainShort(); }
    assert Plain(b) by { PlainShort(); }
    assert Plain(c) by { PlainShort(); }
    MetadataPlain();
    IconPlain();
    PlainConcat(b, c);
    PlainConcat(a, b + c);
    PlainConcat(ICON, a + (b + c));
    PlainConcat(METADATA, ICON + (a + (b + c)));
  }

  lemma {:induction false} PlainShort()
    ensures Plain("   </metadata>\n") && Plain("  </info>\n") && Plain(" ")
    ensures Plain("\">\n  <title>") && Plain("NodeInNet (") && Plain(")</title>\n") && Plain("  <info>\n")
  {
  }

  lemma {:induction false} SecretPlain(secret: Option<string>)
    requires HexSecret(secret)
    ensures Plain(SecretPath(secret))
    ensures SecretPath(secret) != "" ==> SecretPath(secret)[|SecretPath(secret)| - 1] == '/'
                                         && (IsHex(SecretPath(secret)[0]) || SecretPath(secret)[0] == '/')
  {
  }

  lemma {:induction false} TitlePlain(port: nat)
    ensures Plain(Title(port)) && Title(port) != "" && Title(port)[0] == '"'
    ensures Title(port)[|Title(port)| - 1] == '\n'
  {
    hide Plain;
    var a, b, c, d := "\">\n  <title>", "NodeInNet (", ")</title>\n", "  <info>\n";
    PlainShort();
    DecDigits(port);
    PlainConcat(c, d);
    PlainConcat(Dec(port), c + d);
    PlainConcat(b, Dec(port) + (c + d));
    PlainConcat(a, b + (Dec(port) + (c + d)));
  }

  // ----- the parts of a block ------------------------------------------------------------------------------

  const HEAD := "<bookmark href=\"" + "dav://"

  /** What stands between the port and the closing tag. */
  function Tail(port: nat, secret: Option<string>): string {
    SecretPath(secret) + (Title(port) + INFO)
  }

  lemma {:induction false} TailPlain(port: nat, secret: Option<string>)
    requires HexSecret(secret)
    ensures Plain(Tail(port, secret)) && Tail(port, secret) != ""
    ensures Tail(port, secret)[0] != 'h' && Tail(port, secret)[0] != '>'
    ensures Tail(port, secret)[|Tail(port, secret)| - 1] != 'l' && Tail(port, secret)[|Tail(port, secret)| - 1] != 'k'
  {
    hide Plain, Title, SecretPath, HexSecret;
    TitlePlain(port);
    InfoPlain();
    SecretPlain(secret);
    PlainConcat(Title(port), INFO);
    PlainConcat(SecretPath(secret), Title(port) + INFO);
  }

  lemma {:induction false} Assoc(a: string, b: string, c: string)
    ensures a + b + c == a + (b + c)
  {
  }

  lemma {:induction false} ElementParts(port: nat, secret: Option<string>)
    ensures Element(port, secret) == HEAD + (Href(port) + (Tail(port, secret) + CLOSE))
  {
    hide Title, Href;
    var a, b, c, d, e := "<bookmark href=\"", "dav://", Href(port), SecretPath(secret), Title(port) + INFO;
    Assoc(b, c + d, e + CLOSE);
    Assoc(c, d, e + CLOSE);
    Assoc(d, e, CLOSE);
    Assoc(a, b, c + (d + e + CLOSE));
  }

  /** The text before the host's second half, and the rest of the block. */
  lemma {:induction false} BlockParts(port: nat, secret: Option<string>)
    ensures Block(port, secret) ==
            (" " + (HEAD + "local")) + ("host:" + (Dec(port) + ("/" + (Tail(port, secret) + (CLOSE + "\n")))))
  {
    hide Tail, Dec;
    ElementParts(port, secret);
    var t := Tail(port, secret);
    var d := Dec(port) + "/";
    assert "localhost:" == "local" + "host:";
    Assoc("local", "host:", d);
    Assoc(HEAD, "local" + ("host:" + d) + (t + CLOSE), "\n");
    Assoc("local" + ("host:" + d), t + CLOSE, "\n");
    Assoc("local", "host:" + d, t + CLOSE + "\n");
    Assoc("host:", d, t + CLOSE + "\n");
    Assoc(Dec(port), "/", t + CLOSE + "\n");
    Assoc(t, CLOSE, "\n");
    var rest := "host:" + (Dec(port) + ("/" + (t + (CLOSE + "\n"))));
    assert Element(port, secret) + "\n" == HEAD + ("local" + rest);
    Assoc(HEAD, "local", rest);
    Assoc(" ", HEAD + "local", rest);
  }

  const HREF_AT: nat := 23

  lemma {:induction false} FrontApart()
    ensures Apart(" " + (HEAD + "local"), 'l', 'h') && |" " + (HEAD + "local")| == HREF_AT + 5
  {
    assert Apart("<bookmark href=\"", 'l', 'h') && Apart("dav://", 'l', 'h') && Apart("local", 'l', 'h');
  }

  lemma {:induction false} BackApart(port: nat, secret: Option<string>)
    requires HexSecret(secret)
    ensures Apart("host:" + (Dec(port) + ("/" + (Tail(port, secret) + (CLOSE + "\n")))), 'l', 'h')
  {
    hide Tail, Dec;
    var t := Tail(port, secret);
    TailPlain(port, secret);
    DecDigits(port);
    assert Apart(CLOSE, 'l', 'h') && Apart("host:", 'l', 'h');
  }

  lemma {:induction false} DecSlashFree(n: nat)
    ensures '/' !in Dec(n)
  {
    DecDigits(n);
  }

  /** The address of port p stands in the block of port q only for p == q, and only in its one place. */
  lemma {:induction false} HrefInBlock(p: nat, q: nat, secret: Option<string>, i: nat)
    requires HexSecret(secret) && OccursAt(Block(q, secret), Href(p), i)
    ensures p == q && i == HREF_AT
  {
    hide Tail, Dec, Block;
    var x := " " + (HEAD + "local");
    var rest := Tail(q, secret) + (CLOSE + "\n");
    var y := "host:" + (Dec(q) + ("/" + rest));
    var b := Block(q, secret);
    BlockParts(q, secret);
    FrontApart();
    BackApart(q, secret);
    OccursChar(b, Href(p), i, 4);
    OccursChar(b, Href(p), i, 5);
    SamePort(p, q, b, i, x, rest);
  }

  lemma {:induction false} OccursChar(s: string, pat: string, i: nat, k: nat)
    requires OccursAt(s, pat, i) && k < |pat|
    ensures i + k < |s| && s[i + k] == pat[k]
  {
  }

  lemma {:induction false} SamePort(p: nat, q: nat, b: string, i: nat, x: string, rest: string)
    requires b == x + ("host:" + (Dec(q) + ("/" + rest)))
    requires OccursAt(b, Href(p), i) && i + 5 == |x|
    ensures p == q
  {
    hide Dec;
    var h := Href(p);
    assert h == "localhost:" + (Dec(p) + "/") && |"localhost:"| == 10;
    var tail := b[i + 10..];
    assert tail == Dec(q) + ("/" + rest) by {
      assert b[|x|..] == "host:" + (Dec(q) + ("/" + rest));
      assert b[|x|..][5..] == Dec(q) + ("/" + rest);
      assert b[|x|..][5..] == b[|x| + 5..];
    }
    var hay := Dec(p) + "/";
    assert tail[..|hay|] == hay by {
      assert h[10..] == hay;
      assert b[i..i + |h|][10..] == b[i + 10..i + |h|];
      assert tail[..|hay|] == b[i + 10..i + |h|];
    }
    DecSlashFree(p);
    DecSlashFree(q);
    SlashCut(Dec(p), Dec(q), rest, tail);
    DecInjective(p, q);
  }

  lemma {:induction false} SlashCut(a: string, b: string, rest: string, s: string)
    requires '/' !in a && '/' !in b
    requires s == b + ("/" + rest) && |a| + 1 <= |s| && s[..|a| + 1] == a + "/"
    ensures a == b
  {
    assert s[|b|] == '/';
    assert forall k :: 0 <= k < |b| ==> s[k] == b[k];
    assert s[|a|] == s[..|a| + 1][|a|] == '/';
    assert forall k :: 0 <= k < |a| ==> s[k] == s[..|a| + 1][k] == a[k];
    assert |a| == |b|;
    assert s[..|a|] == a && s[..|b|] == b;
  }

  lemma {:induction false} OccursMiddle(u: string, pat: string, v: string)
    ensures OccursAt(u + (pat + v), pat, |u|)
  {
  }

  lemma {:induction false} HrefOccurs(port: nat, secret: Option<string>)
    ensures OccursAt(Block(port, secret), Href(port), HREF_AT)
  {
    hide Tail, Href, OccursAt, Element;
    ElementParts(port, secret);
    var h, after := Href(port), Tail(port, secret) + CLOSE;
    assert |HEAD| == 22;
    Assoc(HEAD, h + after, "\n");
    Assoc(h, after, "\n");
    Assoc(" ", HEAD, h + (after + "\n"));
    OccursMiddle(" " + HEAD, h, after + "\n");
  }

  // ----- removal from any text ---------------------------------------------------------------------------------

  /** The first occurrence from an offset on. */
  predicate FirstAt(s: string, pat: string, from: nat, i: nat) {
    from <= i && OccursAt(s, pat, i) && forall k :: from <= k < i ==> !OccursAt(s, pat, k)
  }

  /** The last occurrence that ends before an offset. */
  predicate LastBefore(s: string, pat: string, upto: nat, i: nat) {
    && OccursAt(s, pat, i) && i + |pat| <= upto
    && forall k :: i < k && k + |pat| <= upto ==> !OccursAt(s, pat, k)
  }

  /** The bookmark element around the first address of the port: from the last opening tag before it to the
      first closing tag after that. */
  ghost predicate ElementAt(s: string, port: nat, start: nat, close: nat) {
    && (exists h: nat :: FirstAt(s, Href(port), 0, h) && LastBefore(s, OPEN, h, start))
    && FirstAt(s, CLOSE, start, close)
  }

  lemma {:induction false} OccursInPart(s: string, from: nat, upto: nat, pat: string, i: nat)
    requires from <= upto <= |s|
    ensures OccursAt(s[from..upto], pat, i) <==> from + i + |pat| <= upto && OccursAt(s, pat, from + i)
  {
    if from + i + |pat| <= upto {
      var t := s[from..upto];
      var a, b := t[i..i + |pat|], s[from + i..from + i + |pat|];
      assert |a| == |b| && forall k :: 0 <= k < |a| ==> a[k] == b[k];
    }
  }

  lemma {:induction false} FindIsFirst(s: string, pat: string, from: nat)
    requires from <= |s| && pat != ""
    ensures Find(s[from..], pat).Some? ==> FirstAt(s, pat, from, from + Find(s[from..], pat).value)
    ensures forall i: nat :: FirstAt(s, pat, from, i) ==> Find(s[from..], pat) == Some(i - from)
  {
    hide OccursAt;
    var t := s[from..];
    assert s[from..|s|] == t;
    forall i: nat ensures OccursAt(t, pat, i) <==> OccursAt(s, pat, from + i) {
      OccursInPart(s, from, |s|, pat, i);
      InBounds(s, pat, from + i);
      OccursFits(s, pat, from + i);
    }
    var r := Find(t, pat);
    if r.Some? {
      forall k: nat | from <= k < from + r.value ensures !OccursAt(s, pat, k) {
        assert OccursAt(t, pat, k - from) <==> OccursAt(s, pat, from + (k - from));
      }
    }
    forall i: nat | FirstAt(s, pat, from, i) ensures r == Some(i - from) {
      assert OccursAt(t, pat, i - from) <==> OccursAt(s, pat, from + (i - from));
      InBounds(t, pat, i - from);
      forall k: nat | k < i - from ensures !OccursAt(t, pat, k) {
        assert OccursAt(s, pat, from + k) ==> from <= from + k < i;
      }
    }
  }

  lemma {:induction false} OccursFits(s: string, pat: string, i: nat)
    ensures OccursAt(s, pat, i) ==> i + |pat| <= |s|
  {
  }

  lemma {:induction false} RFindIsLast(s: string, pat: string, upto: nat)
    requires upto <= |s| && pat != ""
    ensures RFind(s[..upto], pat).Some? ==> LastBefore(s, pat, upto, RFind(s[..upto], pat).value)
    ensures forall i: nat :: LastBefore(s, pat, upto, i) ==> RFind(s[..upto], pat) == Some(i)
  {
    hide OccursAt;
    var t := s[..upto];
    assert s[0..upto] == t;
    forall i: nat ensures OccursAt(t, pat, i) <==> i + |pat| <= upto && OccursAt(s, pat, i) {
      OccursInPart(s, 0, upto, pat, i);
    }
    var r := RFind(t, pat);
    if r.Some? {
      forall k: nat | r.value < k && k + |pat| <= upto ensures !OccursAt(s, pat, k) {
        assert OccursAt(t, pat, k) <==> OccursAt(s, pat, k);
      }
    }
    forall i: nat | LastBefore(s, pat, upto, i) ensures r == Some(i) {
      forall k: nat | i < k <= |t| ensures !OccursAt(t, pat, k) {
        assert OccursAt(t, pat, k) ==> k + |pat| <= upto && OccursAt(s, pat, k);
      }
      RFindUnique(t, pat, i);
    }
  }

  /** In any text, a removal cuts out the element around the port's first address if there is one, and changes
      nothing otherwise. */
  lemma {:induction false} RemoveExactly(s: string, port: nat)
    ensures forall start: nat, close: nat :: ElementAt(s, port, start, close) ==>
              start <= close && close + 11 <= |s| && RemoveEntry(s, port) == s[..start] + s[close + 11..]
    ensures (forall start: nat, close: nat :: !ElementAt(s, port, start, close)) ==> RemoveEntry(s, port) == s
  {
    hide OccursAt, Find, RFind, Href, FirstAt, LastBefore;
    HrefLacks(port);
    FindIsFirst(s, Href(port), 0);
    assert s[0..] == s;
    forall start: nat, close: nat | ElementAt(s, port, start, close)
      ensures start <= close && close + 11 <= |s| && RemoveEntry(s, port) == s[..start] + s[close + 11..]
    {
      ElementRemoved(s, port, start, close);
    }
    var h := Find(s, Href(port));
    if h.Some? {
      FirstFits(s, Href(port), 0, h.value);
      RFindIsLast(s, OPEN, h.value);
      var start := RFind(s[..h.value], OPEN);
      if start.Some? {
        FindIsFirst(s, CLOSE, start.value);
        var rel := Find(s[start.value..], CLOSE);
        if rel.Some? {
          assert ElementAt(s, port, start.value, start.value + rel.value);
        }
      }
    }
  }

  lemma {:induction false} FirstFits(s: string, pat: string, from: nat, i: nat)
    requires FirstAt(s, pat, from, i)
    ensures from <= i && i + |pat| <= |s|
  {
  }

  lemma {:induction false} ElementRemoved(s: string, port: nat, start: nat, close: nat)
    requires ElementAt(s, port, start, close)
    ensures start <= close && close + 11 <= |s| && RemoveEntry(s, port) == s[..start] + s[close + 11..]
  {
    hide OccursAt, Find, RFind, Href, FirstAt, LastBefore;
    var h: nat :| FirstAt(s, Href(port), 0, h) && LastBefore(s, OPEN, h, start);
    HrefLacks(port);
    assert s[0..] == s;
    FirstFits(s, Href(port), 0, h);
    FindIsFirst(s, Href(port), 0);
    RFindIsLast(s, OPEN, h);
    FirstFits(s, CLOSE, start, close);
    FindIsFirst(s, CLOSE, start);
    assert |CLOSE| == 11;
  }

  // ----- a document: base text around a list of edits ------------------------------------------------------

  /** An inserted block, or what is left of it after its removal. */
  datatype Item = Entry(port: nat, secret: Option<string>) | Gap

  function RenderItem(item: Item): string {
    match item case Entry(port, secret) => Block(port, secret) case Gap => " " + "\n"
  }

  function Render(items: seq<Item>): string {
    if items == [] then "" else Render(items[..|items| - 1]) + RenderItem(items[|items| - 1])
  }

  predicate HrefFree(s: string, port: nat) {
    forall i :: 0 <= i <= |s| ==> !OccursAt(s, Href(port), i)
  }

  predicate HexItems(items: seq<Item>) {
    forall k :: 0 <= k < |items| && items[k].Entry? ==> HexSecret(items[k].secret)
  }

  predicate NoEntry(items: seq<Item>, port: nat) {
    forall k :: 0 <= k < |items| && items[k].Entry? ==> items[k].port != port
  }

  /** An occurrence that would straddle a character the pattern lacks stays on one side of it. */
  lemma {:induction false} NoStraddle(u: string, v: string, pat: string, i: nat)
    requires v != "" && v[0] !in pat && pat != "" && OccursAt(u + v, pat, i)
    ensures OccursAt(u, pat, i) || (i > |u| && OccursAt(v, pat, i - |u|))
  {
    var s := u + v;
    if i <= |u| < i + |pat| {
      OccursChar(s, pat, i, |u| - i);
    } else if i + |pat| <= |u| {
      assert s[i..i + |pat|] == u[i..i + |pat|];
    } else {
      assert s[i..i + |pat|] == v[i - |u|..i - |u| + |pat|];
    }
  }

  lemma {:induction false} HrefLacks(port: nat)
    ensures ' ' !in Href(port) && '<' !in Href(port) && Href(port) != ""
  {
    DecDigits(port);
  }

  lemma {:induction false} FreeConcat(u: string, v: string, port: nat)
    requires HrefFree(u, port) && HrefFree(v, port)
    requires v != "" ==> v[0] == ' ' || v[0] == '<'
    ensures HrefFree(u + v, port)
  {
    hide OccursAt, Href;
    HrefLacks(port);
    if v == "" {
      assert u + v == u;
    } else {
      forall i: nat | i <= |u + v| ensures !OccursAt(u + v, Href(port), i) {
        if OccursAt(u + v, Href(port), i) {
          NoStraddle(u, v, Href(port), i);
          InBounds(u, Href(port), i);
          InBounds(v, Href(port), i - |u|);
        }
      }
    }
  }

  lemma {:induction false} InBounds(s: string, pat: string, i: int)
    ensures i >= 0 && OccursAt(s, pat, i) ==> i <= |s|
  {
  }

  lemma {:induction false} ItemShape(item: Item)
    ensures RenderItem(item) != "" && RenderItem(item)[0] == ' '
  {
  }

  lemma {:induction false} FreeItem(item: Item, port: nat)
    requires item.Entry? ==> item.port != port && HexSecret(item.secret)
    ensures HrefFree(RenderItem(item), port)
  {
    hide OccursAt, Href, Block;
    forall i: nat | i <= |RenderItem(item)| ensures !OccursAt(RenderItem(item), Href(port), i) {
      if OccursAt(RenderItem(item), Href(port), i) {
        if item.Entry? {
          HrefInBlock(port, item.port, item.secret, i);
        } else {
          GapTooShort(port, i);
        }
      }
    }
  }

  lemma {:induction false} GapTooShort(port: nat, i: nat)
    ensures !OccursAt(" " + "\n", Href(port), i)
  {
  }

  lemma {:induction false} FreeItems(a: string, items: seq<Item>, port: nat)
    requires HrefFree(a, port) && NoEntry(items, port) && HexItems(items)
    ensures HrefFree(a + Render(items), port)
  {
    hide HrefFree, RenderItem;
    if items == [] {
      assert a + "" == a;
    } else {
      var init, last := items[..|items| - 1], items[|items| - 1];
      FreeItems(a, init, port);
      FreeItem(last, port);
      ItemShape(last);
      FreeConcat(a + Render(init), RenderItem(last), port);
      Assoc(a, Render(init), RenderItem(last));
    }
  }

  // ----- removing one block ------------------------------------------------------------------------------------

  lemma {:induction false} OccursShift(u: string, s: string, v: string, pat: string, i: nat)
    requires OccursAt(s, pat, i)
    ensures OccursAt(u + (s + v), pat, |u| + i)
  {
  }

  lemma {:induction false} RFindUnique(s: string, pat: string, i: nat)
    requires OccursAt(s, pat, i) && i <= |s|
    requires forall k: nat :: i < k <= |s| ==> !OccursAt(s, pat, k)
    ensures RFind(s, pat) == Some(i)
  {
  }

  /** Around free text, the address of a port occurs in its own block and nowhere else. */
  lemma {:induction false} HrefOnlyThere(u: string, port: nat, secret: Option<string>, v: string)
    requires HexSecret(secret) && HrefFree(u, port) && HrefFree(v, port)
    requires v != "" ==> v[0] == ' ' || v[0] == '<'
    ensures forall k: nat :: OccursAt(u + (Block(port, secret) + v), Href(port), k) <==> k == |u| + HREF_AT
  {
    hide OccursAt, Href, HexSecret, Element;
    var b, h := Block(port, secret), Href(port);
    var s := u + (b + v);
    HrefLacks(port);
    HrefOccurs(port, secret);
    OccursShift(u, b, v, h, HREF_AT);
    forall k: nat | OccursAt(s, h, k) ensures k == |u| + HREF_AT {
      NoStraddle(u, b + v, h, k);
      InBounds(u, h, k);
      HrefInRest(port, secret, v, k - |u|);
    }
  }

  /** The address of the removed port is found in its own block. */
  lemma {:induction false} HrefFound(u: string, port: nat, secret: Option<string>, v: string)
    requires HexSecret(secret) && HrefFree(u, port) && HrefFree(v, port)
    requires v != "" ==> v[0] == ' ' || v[0] == '<'
    ensures Find(u + (Block(port, secret) + v), Href(port)) == Some(|u| + HREF_AT)
  {
    hide Href, HexSecret, Block;
    var s, h := u + (Block(port, secret) + v), Href(port);
    HrefOnlyThere(u, port, secret, v);
    assert OccursAt(s, h, |u| + HREF_AT);
  }

  lemma {:induction false} HrefInRest(port: nat, secret: Option<string>, v: string, i: nat)
    requires HexSecret(secret) && HrefFree(v, port) && OccursAt(Block(port, secret) + v, Href(port), i)
    requires v != "" ==> v[0] == ' ' || v[0] == '<'
    ensures i == HREF_AT
  {
    hide OccursAt, Href, HexSecret, Block;
    var b := Block(port, secret);
    HrefLacks(port);
    if v == "" {
      assert b + v == b;
    } else {
      NoStraddle(b, v, Href(port), i);
      InBounds(v, Href(port), i - |b|);
    }
    HrefInBlock(port, port, secret, i);
  }

  /** Nothing in the head opens another bookmark. */
  lemma {:induction false} LastOpen(u: string)
    ensures RFind(u + HEAD, OPEN) == Some(|u|)
  {
    var s := u + HEAD;
    assert HEAD == OPEN + " href=\"dav://" && |HEAD| == 22;
    OccursMiddle(u, OPEN, " href=\"dav://");
    assert s == u + (OPEN + " href=\"dav://");
    forall k: nat | |u| < k <= |s| ensures !OccursAt(s, OPEN, k) {
      if OccursAt(s, OPEN, k) {
        OccursChar(s, OPEN, k, 0);
        assert s[k] == HEAD[k - |u|];
        HeadOpensOnce(k - |u|);
      }
    }
    RFindUnique(s, OPEN, |u|);
  }

  lemma {:induction false} HeadOpensOnce(j: nat)
    requires 0 < j < |HEAD|
    ensures HEAD[j] != '<'
  {
  }

  /** The first closing tag after text in which no 'k' meets a '>'. */
  lemma {:induction false} FirstClose(e: string, rest: string)
    requires Apart(e, 'k', '>') && (e != "" ==> e[|e| - 1] != 'k')
    ensures Find(e + (CLOSE + rest), CLOSE) == Some(|e|)
  {
    var s := e + (CLOSE + rest);
    var front := e + "</bookmark";
    assert CLOSE == "</bookmark" + ">" && |CLOSE| == 11;
    assert Apart("</bookmark", 'k', '>');
    assert s == front + (">" + rest);
    assert forall j :: 0 <= j < |front| ==> s[j] == front[j];
    OccursMiddle(e, CLOSE, rest);
    forall k: nat | k < |e| ensures !OccursAt(s, CLOSE, k) {
      if OccursAt(s, CLOSE, k) {
        OccursChar(s, CLOSE, k, 9);
        OccursChar(s, CLOSE, k, 10);
      }
    }
  }

  /** The element up to its closing tag. */
  lemma {:induction false} ElementFront(port: nat, secret: Option<string>)
    requires HexSecret(secret)
    ensures var e := HEAD + (Href(port) + Tail(port, secret));
            Apart(e, 'k', '>') && e[|e| - 1] != 'k' && Element(port, secret) == e + CLOSE
  {
    hide Tail, Dec, Element;
    var t := Tail(port, secret);
    TailPlain(port, secret);
    DecDigits(port);
    assert Apart("<bookmark href=\"", 'k', '>') && Apart("dav://", 'k', '>') && Apart("localhost:", 'k', '>');
    ElementParts(port, secret);
    Assoc(Href(port), t, CLOSE);
    Assoc(HEAD, Href(port) + t, CLOSE);
  }

  /** Removal leaves the block's leading space and line break, and everything else. */
  lemma {:induction false} RemoveBlock(u: string, port: nat, secret: Option<string>, v: string)
    requires HexSecret(secret) && HrefFree(u, port) && HrefFree(v, port)
    requires v != "" ==> v[0] == ' ' || v[0] == '<'
    ensures RemoveEntry(u + (Block(port, secret) + v), port) == u + ((" " + "\n") + v)
  {
    hide Find, RFind, Tail, Href, Element, HexSecret, HrefFree;
    var e := HEAD + (Href(port) + Tail(port, secret));
    var content := u + (Block(port, secret) + v);
    HrefFound(u, port, secret, v);
    ElementFront(port, secret);
    CutHead(u, HEAD, Href(port) + Tail(port, secret), CLOSE, v);
    assert |HEAD| == 22;
    LastOpen(u + " ");
    FirstClose(e, "\n" + v);
  }

  lemma {:induction false} CutHead(u: string, head: string, t: string, close: string, v: string)
    ensures var e := head + t;
            var content := u + ((" " + ((e + close) + "\n")) + v);
            && |content| >= |u| + 1 + |head|
            && content[..|u| + 1 + |head|] == (u + " ") + head
            && content[..|u| + 1] == u + " "
            && content[|u| + 1..] == e + (close + ("\n" + v))
            && content[|u| + 1 + |e| + |close|..] == "\n" + v
            && (u + " ") + ("\n" + v) == u + ((" " + "\n") + v)
  {
  }

  // ----- runs of edits ---------------------------------------------------------------------------------------

  function Doc(a: string, items: seq<Item>, z: string): string {
    (a + Render(items)) + z
  }

  function Cleared(items: seq<Item>, port: nat): seq<Item> {
    seq(|items|, k requires 0 <= k < |items| => if items[k].Entry? && items[k].port == port then Gap else items[k])
  }

  /** At most one entry per port. */
  predicate UniquePorts(items: seq<Item>) {
    forall j, k :: 0 <= j < k < |items| && items[j].Entry? && items[k].Entry? ==> items[j].port != items[k].port
  }

  lemma {:induction false} RenderConcat(x: seq<Item>, y: seq<Item>)
    ensures Render(x + y) == Render(x) + Render(y)
  {
    hide RenderItem;
    if y == [] {
      assert x + y == x;
    } else {
      var init := y[..|y| - 1];
      RenderConcat(x, init);
      assert (x + y)[..|x + y| - 1] == x + init;
      Assoc(Render(x), Render(init), RenderItem(y[|y| - 1]));
    }
  }

  lemma {:induction false} RenderOne(item: Item)
    ensures Render([item]) == RenderItem(item)
  {
  }

  /** The document around one of its items. */
  lemma {:induction false} DocAround(a: string, x: seq<Item>, item: Item, y: seq<Item>, z: string)
    ensures Doc(a, x + [item] + y, z) == (a + Render(x)) + (RenderItem(item) + (Render(y) + z))
  {
    hide Render, RenderItem;
    RenderConcat(x + [item], y);
    RenderConcat(x, [item]);
    RenderOne(item);
    Assoc(Render(x), RenderItem(item), Render(y));
    Assoc(a, Render(x), RenderItem(item) + Render(y));
    Assoc(a + Render(x), RenderItem(item) + Render(y), z);
    Assoc(RenderItem(item), Render(y), z);
  }

  lemma {:induction false} RenderStart(items: seq<Item>)
    ensures Render(items) != "" ==> Render(items)[0] == ' '
  {
    hide RenderItem;
    if items != [] {
      RenderStart(items[..|items| - 1]);
      ItemShape(items[|items| - 1]);
    }
  }

  /** A document around the entry of a port: text without its address, the block, and such text again. */
  lemma {:induction false} AroundEntry(a: string, items: seq<Item>, z: string, port: nat)
    returns (u: string, secret: Option<string>, v: string)
    requires HrefFree(a, port) && HrefFree(z, port) && z != "" && z[0] == '<'
    requires HexItems(items) && UniquePorts(items) && !NoEntry(items, port)
    ensures HexSecret(secret) && HrefFree(u, port) && HrefFree(v, port) && (v != "" ==> v[0] == ' ' || v[0] == '<')
    ensures Doc(a, items, z) == u + (Block(port, secret) + v)
    ensures Doc(a, Cleared(items, port), z) == u + ((" " + "\n") + v)
  {
    hide HrefFree, Render, RenderItem, Block, HexSecret;
    var k :| 0 <= k < |items| && items[k].Entry? && items[k].port == port;
    var x, y := items[..k], items[k + 1..];
    secret := items[k].secret;
    u, v := a + Render(x), Render(y) + z;
    assert items == x + [items[k]] + y;
    assert Cleared(items, port) == x + [Gap] + y;
    FreeItems(a, x, port);
    EmptyFree(port);
    FreeItems("", y, port);
    assert "" + Render(y) == Render(y);
    FreeConcat(Render(y), z, port);
    RenderStart(y);
    DocAround(a, x, items[k], y, z);
    DocAround(a, x, Gap, y, z);
    ItemTexts(port, secret);
  }

  lemma {:induction false} DocWithoutEntry(a: string, items: seq<Item>, z: string, port: nat)
    requires HrefFree(a, port) && HrefFree(z, port) && z != "" && z[0] == '<'
    requires HexItems(items) && NoEntry(items, port)
    ensures HrefFree(Doc(a, items, z), port) && Cleared(items, port) == items
  {
    hide HrefFree, Render;
    FreeItems(a, items, port);
    FreeConcat(a + Render(items), z, port);
  }

  lemma {:induction false} RemoveFromDoc(a: string, items: seq<Item>, z: string, port: nat)
    requires HrefFree(a, port) && HrefFree(z, port) && z != "" && z[0] == '<'
    requires HexItems(items) && UniquePorts(items)
    ensures RemoveEntry(Doc(a, items, z), port) == Doc(a, Cleared(items, port), z)
  {
    hide HrefFree, Doc, RemoveEntry, Block, HexSecret, HexItems, UniquePorts, NoEntry, Cleared;
    if NoEntry(items, port) {
      DocWithoutEntry(a, items, z, port);
      RemoveNothing(Doc(a, items, z), port);
    } else {
      var u, secret, v := AroundEntry(a, items, z, port);
      RemoveBlock(u, port, secret, v);
    }
  }

  /** A document holds the address of a port at most once, and holds it exactly when the port has an entry. */
  lemma {:induction false} HrefInDoc(a: string, items: seq<Item>, z: string, port: nat)
    requires HrefFree(a, port) && HrefFree(z, port) && z != "" && z[0] == '<'
    requires HexItems(items) && UniquePorts(items)
    ensures HasOnce(Doc(a, items, z), port)
    ensures HrefFree(Doc(a, items, z), port) <==> NoEntry(items, port)
  {
    hide Doc, Block, HexSecret, HexItems, UniquePorts, NoEntry, Cleared, OccursAt;
    if NoEntry(items, port) {
      DocWithoutEntry(a, items, z, port);
      OccursInside(Doc(a, items, z), port);
    } else {
      var u, secret, v := AroundEntry(a, items, z, port);
      HrefOnlyThere(u, port, secret, v);
      assert OccursAt(Doc(a, items, z), Href(port), |u| + HREF_AT);
      OccursInside(Doc(a, items, z), port);
    }
  }

  /** The address of the port occurs at one place at most. */
  predicate HasOnce(s: string, port: nat) {
    forall i, j :: 0 <= i <= |s| && 0 <= j <= |s| && OccursAt(s, Href(port), i) && OccursAt(s, Href(port), j) ==> i == j
  }

  lemma {:induction false} OccursInside(s: string, port: nat)
    ensures forall k: nat :: OccursAt(s, Href(port), k) ==> k <= |s|
  {
  }

  lemma {:induction false} ItemTexts(port: nat, secret: Option<string>)
    ensures RenderItem(Entry(port, secret)) == Block(port, secret) && RenderItem(Gap) == " " + "\n"
  {
  }

  lemma {:induction false} EmptyFree(port: nat)
    ensures HrefFree("", port)
  {
  }

  lemma {:induction false} RemoveNothing(s: string, port: nat)
    requires HrefFree(s, port)
    ensures RemoveEntry(s, port) == s
  {
  }

  /** z starts with the closing tag of the document and holds no other one. */
  predicate Closing(z: string) {
    OccursAt(z, END, 0) && forall k :: 0 < k <= |z| ==> !OccursAt(z, END, k)
  }

  lemma {:induction false} ClosingFound(x: string, z: string)
    requires Closing(z)
    ensures RFind(x + z, END) == Some(|x|) && z != "" && z[0] == '<'
    ensures (x + z)[..|x|] == x && (x + z)[|x|..] == z
  {
    var s := x + z;
    assert z[0..|END|] == END;
    assert z[0] == END[0];
    assert s[|x|..|x| + |END|] == z[0..|END|];
    forall k: nat | |x| < k <= |s| ensures !OccursAt(s, END, k) {
      if OccursAt(s, END, k) {
        assert s[k..k + |END|] == z[k - |x|..k - |x| + |END|];
        assert OccursAt(z, END, k - |x|);
      }
    }
    RFindUnique(s, END, |x|);
  }

  datatype Op = Op(port: nat, add: bool, secret: Option<string>)

  function EditAll(text: string, ops: seq<Op>): string {
    if ops == [] then text
    else
      var op := ops[|ops| - 1];
      Edit(EditAll(text, ops[..|ops| - 1]), op.port, op.add, op.secret)
  }

  /** The list of edits after a sequence of adds and removes. */
  function ItemsAfter(ops: seq<Op>): seq<Item> {
    if ops == [] then []
    else
      var op := ops[|ops| - 1];
      Cleared(ItemsAfter(ops[..|ops| - 1]), op.port) + if op.add then [Entry(op.port, op.secret)] else []
  }

  predicate HexOps(ops: seq<Op>) {
    forall k :: 0 <= k < |ops| ==> HexSecret(ops[k].secret)
  }

  /** Whatever was added and removed, no port ever has two entries. */
  lemma {:induction false} OneEntryPerPort(ops: seq<Op>)
    ensures UniquePorts(ItemsAfter(ops))
    ensures HexOps(ops) ==> HexItems(ItemsAfter(ops))
  {
    hide HexSecret;
    if ops != [] {
      OneEntryPerPort(ops[..|ops| - 1]);
    }
  }

  lemma {:induction false} EditDoc(a: string, items: seq<Item>, z: string, op: Op)
    requires HrefFree(a, op.port) && HrefFree(z, op.port) && Closing(z)
    requires HexItems(items) && UniquePorts(items)
    ensures Edit(Doc(a, items, z), op.port, op.add, op.secret) ==
            Doc(a, Cleared(items, op.port) + if op.add then [Entry(op.port, op.secret)] else [], z)
  {
    hide HrefFree, Render, RenderItem, RemoveEntry, Block, Closing, HexItems, Cleared;
    var cleared := Cleared(items, op.port);
    ClosingFound(a + Render(cleared), z);
    RemoveFromDoc(a, items, z, op.port);
    if op.add {
      var item := Entry(op.port, op.secret);
      DocAround(a, cleared, item, [], z);
      ItemTexts(op.port, op.secret);
      assert cleared + [item] + [] == cleared + [item];
      RenderNothing(z);
      Assoc(a + Render(cleared), Block(op.port, op.secret), z);
    } else {
      assert cleared + [] == cleared;
    }
  }

  lemma {:induction false} RenderNothing(z: string)
    ensures Render([]) + z == z
  {
  }

  /** Every run of edits acts on the list of entries alone: the base text around them never changes.
      A text that has no closing tag is never changed at all. */
  lemma {:induction false} EditsActOnEntries(text: string, ops: seq<Op>)
    requires HexOps(ops) && forall k :: 0 <= k < |ops| ==> HrefFree(text, ops[k].port)
    ensures match RFind(text, END)
            case None => EditAll(text, ops) == text
            case Some(p) => EditAll(text, ops) == Doc(text[..p], ItemsAfter(ops), text[p..])
  {
    hide HrefFree, Render, Edit, HexSecret, Cleared;
    var r := RFind(text, END);
    if ops == [] {
      if r.Some? {
        RenderNothing("");
        assert text[..r.value] + "" == text[..r.value];
        assert text == text[..r.value] + text[r.value..];
      }
    } else {
      var init, op := ops[..|ops| - 1], ops[|ops| - 1];
      EditsActOnEntries(text, init);
      OneEntryPerPort(init);
      if r.Some? {
        TextParts(text, r.value, op.port);
        EditDoc(text[..r.value], ItemsAfter(init), text[r.value..], op);
      } else {
        EditWithoutEnd(text, op);
      }
    }
  }

  /** In the text itself: after any edits a port's address occurs at most once, and exactly when the port has
      an entry. */
  lemma {:induction false} OneAddressPerPort(text: string, ops: seq<Op>, port: nat)
    requires HexOps(ops) && HrefFree(text, port) && forall k :: 0 <= k < |ops| ==> HrefFree(text, ops[k].port)
    ensures HasOnce(EditAll(text, ops), port)
    ensures HrefFree(EditAll(text, ops), port) <==> RFind(text, END).None? || NoEntry(ItemsAfter(ops), port)
  {
    hide HrefFree, HasOnce, EditAll, HexItems, UniquePorts, HexSecret, Doc, ItemsAfter, NoEntry, Closing;
    EditsActOnEntries(text, ops);
    var r := RFind(text, END);
    if r.Some? {
      TextParts(text, r.value, port);
      ClosingFound("", text[r.value..]);
      OneEntryPerPort(ops);
      HrefInDoc(text[..r.value], ItemsAfter(ops), text[r.value..], port);
    } else {
      FreeHasOnce(text, port);
    }
  }

  lemma {:induction false} FreeHasOnce(text: string, port: nat)
    requires HrefFree(text, port)
    ensures HasOnce(text, port)
  {
  }

  lemma {:induction false} TextParts(text: string, p: nat, port: nat)
    requires HrefFree(text, port) && RFind(text, END) == Some(p)
    ensures HrefFree(text[..p], port) && HrefFree(text[p..], port) && Closing(text[p..])
  {
    var a, z := text[..p], text[p..];
    forall k | 0 <= k <= |a| ensures !OccursAt(a, Href(port), k) {
      assert OccursAt(a, Href(port), k) ==> text[k..k + |Href(port)|] == a[k..k + |Href(port)|];
      assert OccursAt(a, Href(port), k) ==> OccursAt(text, Href(port), k);
    }
    forall k | 0 <= k <= |z| ensures !OccursAt(z, Href(port), k) {
      assert OccursAt(z, Href(port), k) ==> text[p + k..p + k + |Href(port)|] == z[k..k + |Href(port)|];
      assert OccursAt(z, Href(port), k) ==> OccursAt(text, Href(port), p + k);
    }
    assert z[0..|END|] == text[p..p + |END|];
    forall k | 0 < k <= |z| ensures !OccursAt(z, END, k) {
      assert OccursAt(z, END, k) ==> text[p + k..p + k + |END|] == z[k..k + |END|];
      assert OccursAt(z, END, k) ==> OccursAt(text, END, p + k);
    }
  }

  lemma {:induction false} EditWithoutEnd(text: string, op: Op)
    requires HrefFree(text, op.port) && RFind(text, END).None?
    ensures Edit(text, op.port, op.add, op.secret) == text
  {
  }

  lemma {:induction false} ItemsAddRemove(ops: seq<Op>, port: nat, secret: Option<string>)
    ensures ItemsAfter(ops + [Op(port, true, secret), Op(port, false, secret)])
         == Cleared(ItemsAfter(ops), port) + [Gap]
    ensures NoEntry(ItemsAfter(ops), port) ==> Cleared(ItemsAfter(ops), port) == ItemsAfter(ops)
  {
    var add, remove := Op(port, true, secret), Op(port, false, secret);
    var more, cleared := ops + [add, remove], Cleared(ItemsAfter(ops), port);
    assert more[..|more| - 1] == ops + [add] && (ops + [add])[..|ops|] == ops;
    assert ItemsAfter(ops + [add]) == cleared + [Entry(port, secret)];
    assert Cleared(cleared + [Entry(port, secret)], port) == cleared + [Gap];
  }

  /** Adding an entry and removing it again restores the text, up to the block's leading space and line
      break before the closing tag; an earlier entry of the same port is gone. */
  lemma {:induction false} AddThenRemove(text: string, ops: seq<Op>, port: nat, secret: Option<string>, p: nat)
    requires HexOps(ops) && HexSecret(secret) && RFind(text, END) == Some(p)
    requires HrefFree(text, port) && forall k :: 0 <= k < |ops| ==> HrefFree(text, ops[k].port)
    ensures var before := ItemsAfter(ops);
            && EditAll(text, ops) == Doc(text[..p], before, text[p..])
            && EditAll(text, ops + [Op(port, true, secret), Op(port, false, secret)])
               == Doc(text[..p], Cleared(before, port), (" " + "\n") + text[p..])
            && (NoEntry(before, port) ==> Cleared(before, port) == before)
  {
    hide HrefFree, Doc, HexSecret, EditAll, RFind, ItemsAfter, Cleared, NoEntry;
    var more := ops + [Op(port, true, secret), Op(port, false, secret)];
    assert forall k :: 0 <= k < |more| ==>
             more[k] == if k < |ops| then ops[k] else Op(port, k == |ops|, secret);
    EditsActOnEntries(text, ops);
    EditsActOnEntries(text, more);
    ItemsAddRemove(ops, port, secret);
    DocGap(text[..p], Cleared(ItemsAfter(ops), port), text[p..]);
  }

  lemma {:induction false} DocGap(a: string, items: seq<Item>, z: string)
    ensures Doc(a, items + [Gap], z) == Doc(a, items, (" " + "\n") + z)
  {
    hide Render;
    RenderConcat(items, [Gap]);
    RenderOne(Gap);
    Assoc(a, Render(items), " " + "\n");
    Assoc(a + Render(items), " " + "\n", z);
  }

  /** An edit for one port leaves the entries of all other ports where they are. */
  lemma {:induction false} OtherPortsSurvive(ops: seq<Op>, op: Op, k: nat)
    requires k < |ItemsAfter(ops)| && ItemsAfter(ops)[k].Entry? && ItemsAfter(ops)[k].port != op.port
    ensures k < |ItemsAfter(ops + [op])| && ItemsAfter(ops + [op])[k] == ItemsAfter(ops)[k]
  {
  }
}
