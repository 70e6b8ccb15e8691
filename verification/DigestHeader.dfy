/** The parameters of a digest Authorization header (web-davserver/src/auth.rs 319-367; the parameter
    syntax is that of section 3.4 of RFC 7616). */
module DigestHeader {
  import opened Text
  import opened Options
  import opened NonceTable

  datatype Param = Param(key: string, value: string)

  // ----- the parser -----------------------------------------------------------------------------------

  /** One comma-separated part; a part without an equals sign is ignored. */
  function ParsePart(part: string): Option<Param> {
    match SplitOnce(Trim(part), '=')
    case None => None
    case Some(Cut(key, value)) =>
      Some(Param(Trim(key), TrimEndChar(TrimStartChar(Trim(value), '"'), '"')))
  }

  function Insert(m: map<string, string>, part: string): map<string, string> {
    match ParsePart(part) case None => m case Some(p) => m[p.key := p.value]
  }

  /** The parts inserted in order, so a later duplicate wins. */
  function ParseParts(parts: seq<string>): map<string, string> {
    if parts == [] then map[] else Insert(ParseParts(parts[..|parts| - 1]), parts[|parts| - 1])
  }

  function Parse(header: string): map<string, string> {
    ParseParts(Split(header, ','))
  }

  method ParseDigestHeader(header: string) returns (m: map<string, string>)
    ensures m == Parse(header)
  {
    m := map[];
    var parts := Split(header, ',');
    for i := 0 to |parts|
      invariant m == ParseParts(parts[..i])
    {
      var trimmed := Trim(parts[i]);
      var cut := SplitOnce(trimmed, '=');
      if cut.Some? {
        var key := Trim(cut.value.left);
        var value := TrimEndChar(TrimStartChar(Trim(cut.value.right), '"'), '"');
        m := m[key := value];
      }
      assert parts[..i + 1][..i] == parts[..i];
    }
    assert parts[..|parts|] == parts;
  }

  // ----- the printed form -------------------------------------------------------------------------------

  function Quoted(value: string): string {
    "\"" + value + "\""
  }

  function PrintParam(p: Param): string {
    p.key + "=" + Quoted(p.value)
  }

  function PrintRest(ps: seq<Param>): seq<string> {
    seq(|ps|, i requires 0 <= i < |ps| => (if i == 0 then "" else " ") + PrintParam(ps[i]))
  }

  /** k1="v1", k2="v2", ... */
  function Print(ps: seq<Param>): string {
    if ps == [] then "" else Join(PrintRest(ps), ',')
  }

  predicate DistinctKeys(ps: seq<Param>) {
    forall i, j :: 0 <= i < j < |ps| ==> ps[i].key != ps[j].key
  }

  function AsMap(ps: seq<Param>): map<string, string> {
    if ps == [] then map[] else AsMap(ps[..|ps| - 1])[ps[|ps| - 1].key := ps[|ps| - 1].value]
  }

  /** The key and value a header can carry through the parser. */
  predicate Carried(p: Param) {
    && Trimmed(p.key) && ',' !in p.key && '=' !in p.key
    && ',' !in p.value
    && (p.value != "" ==> p.value[0] != '"' && p.value[|p.value| - 1] != '"')
  }

  // ----- trimming -----------------------------------------------------------------------------------------

  lemma {:induction false} TrimEndShape(s: string)
    ensures TrimEnd(s) <= s
    ensures TrimEnd(s) != "" ==> !IsSpace(TrimEnd(s)[|TrimEnd(s)| - 1])
    ensures (s != "" ==> !IsSpace(s[|s| - 1])) ==> TrimEnd(s) == s
  {
    if s != "" && IsSpace(s[|s| - 1]) {
      TrimEndShape(s[..|s| - 1]);
    }
  }

  lemma {:induction false} TrimStartShape(s: string)
    ensures TrimStart(s) != "" ==> !IsSpace(TrimStart(s)[0])
    ensures forall c :: c in TrimStart(s) ==> c in s
    ensures (s != "" ==> !IsSpace(s[0])) ==> TrimStart(s) == s
  {
    if s != "" && IsSpace(s[0]) {
      TrimStartShape(s[1..]);
    }
  }

  lemma {:induction false} TrimShape(s: string)
    ensures Trimmed(Trim(s))
    ensures forall c :: c in Trim(s) ==> c in s
    ensures Trimmed(s) ==> Trim(s) == s
  {
    TrimStartShape(s);
    TrimEndShape(TrimStart(s));
  }

  lemma {:induction false} TrimEndCharShape(s: string, c: char)
    ensures TrimEndChar(s, c) <= s
    ensures TrimEndChar(s, c) != "" ==> TrimEndChar(s, c)[|TrimEndChar(s, c)| - 1] != c
    ensures (s != "" ==> s[|s| - 1] != c) ==> TrimEndChar(s, c) == s
  {
    if s != "" && s[|s| - 1] == c {
      TrimEndCharShape(s[..|s| - 1], c);
    }
  }

  lemma {:induction false} TrimStartCharShape(s: string, c: char)
    ensures TrimStartChar(s, c) != "" ==> TrimStartChar(s, c)[0] != c
    ensures forall d :: d in TrimStartChar(s, c) ==> d in s
    ensures (s != "" ==> s[0] != c) ==> TrimStartChar(s, c) == s
  {
    if s != "" && s[0] == c {
      TrimStartCharShape(s[1..], c);
    }
  }

  /** Both trims of a quoted value give the value back when it neither starts nor ends with a quote. */
  lemma {:induction false} UnquoteQuoted(v: string)
    requires v != "" ==> v[0] != '"' && v[|v| - 1] != '"'
    ensures TrimEndChar(TrimStartChar("\"" + v + "\"", '"'), '"') == v
  {
    var quoted := "\"" + v + "\"";
    assert quoted[1..] == v + "\"";
    TrimStartCharShape(v + "\"", '"');
    TrimEndCharShape(v, '"');
    if v == "" {
      assert (v + "\"")[1..] == "";
    } else {
      assert (v + "\"")[..|v|] == v;
    }
  }

  // ----- what the parser can produce ------------------------------------------------------------------------

  lemma {:induction false} SplitOnceShape(s: string, c: char)
    ensures var cut := SplitOnce(s, c);
            cut.Some? ==>
              && c !in cut.value.left
              && (forall d :: d in cut.value.left ==> d in s)
              && (forall d :: d in cut.value.right ==> d in s)
  {
  }

  /** Everything the parser returns is a carried pair. */
  lemma {:induction false} ParsedIsCarried(part: string)
    requires ',' !in part
    ensures ParsePart(part).Some? ==> Carried(ParsePart(part).value)
  {
    hide Trim, SplitOnce, TrimStartChar, TrimEndChar, IsSpace;
    var t := Trim(part);
    TrimShape(part);
    SplitOnceShape(t, '=');
    var cut := SplitOnce(t, '=');
    if cut.Some? {
      TrimShape(cut.value.left);
      TrimShape(cut.value.right);
      TrimStartCharShape(Trim(cut.value.right), '"');
      TrimEndCharShape(TrimStartChar(Trim(cut.value.right), '"'), '"');
    }
  }

  lemma {:induction false} ParsedPartsCarried(parts: seq<string>)
    requires forall p :: p in parts ==> ',' !in p
    ensures forall k :: k in ParseParts(parts) ==> Carried(Param(k, ParseParts(parts)[k]))
  {
    if parts != [] {
      ParsedPartsCarried(parts[..|parts| - 1]);
      ParsedIsCarried(parts[|parts| - 1]);
    }
  }

  // ----- the round trip ---------------------------------------------------------------------------------------

  lemma {:induction false} PrintedShape(p: Param)
    requires Carried(p)
    ensures Trimmed(PrintParam(p)) && PrintParam(p) != "" && ',' !in PrintParam(p)
    ensures Trimmed(Quoted(p.value))
  {
  }

  lemma {:induction false} PadTrims(text: string, pad: string)
    requires Trimmed(text) && text != "" && (pad == "" || pad == " ")
    ensures Trim(pad + text) == text
  {
    TrimShape(text);
    assert pad == " " ==> (pad + text)[1..] == text;
    assert "" + text == text;
  }

  lemma {:induction false} ParsePrinted(p: Param, pad: string)
    requires Carried(p) && (pad == "" || pad == " ")
    ensures ParsePart(pad + PrintParam(p)) == Some(p)
    ensures ',' !in pad + PrintParam(p)
  {
    hide Trim, SplitOnce, TrimStartChar, TrimEndChar, IsSpace;
    PrintedShape(p);
    PadTrims(PrintParam(p), pad);
    assert PrintParam(p) == p.key + "=" + Quoted(p.value);
    SplitOnceConcat(p.key, '=', Quoted(p.value));
    TrimShape(p.key);
    TrimShape(Quoted(p.value));
    UnquoteQuoted(p.value);
  }

  lemma {:induction false} ParsePrintedParts(ps: seq<Param>, n: nat)
    requires n <= |ps| && forall p :: p in ps ==> Carried(p)
    ensures ParseParts(PrintRest(ps)[..n]) == AsMap(ps[..n])
    ensures forall i :: 0 <= i < n ==> ',' !in PrintRest(ps)[i]
  {
    hide ParsePart, PrintParam, Carried;
    if n > 0 {
      ParsePrintedParts(ps, n - 1);
      ParsePrinted(ps[n - 1], if n == 1 then "" else " ");
      var all := PrintRest(ps);
      assert all[..n][..n - 1] == all[..n - 1] && all[..n][n - 1] == all[n - 1];
      assert ps[..n][..n - 1] == ps[..n - 1] && ps[..n][n - 1] == ps[n - 1];
    }
  }

  lemma {:induction false} AsMapHas(ps: seq<Param>, i: nat)
    requires DistinctKeys(ps) && i < |ps|
    ensures ps[i].key in AsMap(ps) && AsMap(ps)[ps[i].key] == ps[i].value
  {
    if i < |ps| - 1 {
      AsMapHas(ps[..|ps| - 1], i);
    }
  }

  /** Parsing the printed form of parameters with distinct keys gives them back exactly when every key
      is trimmed and free of commas and equals signs and every value is free of commas and neither
      starts nor ends with a quote. Values may hold equals signs, inner quotes and edge spaces. */
  lemma {:induction false} RoundTrip(ps: seq<Param>)
    requires DistinctKeys(ps)
    ensures Parse(Print(ps)) == AsMap(ps) <==> forall i :: 0 <= i < |ps| ==> Carried(ps[i])
  {
    if ps == [] {
      SplitWhole("", ',');
      assert TrimStart("") == "" && TrimEnd("") == "";
      assert SplitOnce("", '=') == None;
      assert ParseParts([""]) == map[];
    } else if forall i :: 0 <= i < |ps| ==> Carried(ps[i]) {
      ParsePrintedParts(ps, |ps|);
      assert PrintRest(ps)[..|ps|] == PrintRest(ps) && ps[..|ps|] == ps;
      SplitJoin(PrintRest(ps), ',');
    } else {
      var i :| 0 <= i < |ps| && !Carried(ps[i]);
      ParsedPartsCarried(Split(Print(ps), ','));
      AsMapHas(ps, i);
      assert Param(ps[i].key, ps[i].value) == ps[i];
    }
  }

  // ----- headers with unquoted values -------------------------------------------------------------------------

  /** As clients print it: some values in quotes, others, such as nc and algorithm, as they are. */
  function PrintAs(p: Param, quoted: bool): string {
    p.key + "=" + if quoted then Quoted(p.value) else p.value
  }

  function PrintMixed(ps: seq<Param>, quoted: seq<bool>): seq<string>
    requires |ps| == |quoted|
  {
    seq(|ps|, i requires 0 <= i < |ps| => (if i == 0 then "" else " ") + PrintAs(ps[i], quoted[i]))
  }

  /** What a parameter must be to survive in that form. */
  predicate CarriedAs(p: Param, quoted: bool) {
    Carried(p) && (quoted || Trimmed(p.value))
  }

  lemma {:induction false} TrimShorter(s: string)
    ensures |Trim(s)| <= |s| && |TrimEnd(s)| <= |s| && (!Trimmed(s) ==> |Trim(TrimEnd(s))| < |s|)
    ensures Trimmed(s) ==> Trim(s) == s && TrimEnd(s) == s
  {
    hide IsSpace;
    TrimShape(s);
    var a, b := TrimTakes(s);
    var end := TrimEndTakes(s);
    TrimEndShape(s);
    TrimShape(TrimEnd(s));
    var c, d := TrimTakes(TrimEnd(s));
  }

  lemma {:induction false} UnquoteShorter(s: string)
    ensures |TrimEndChar(TrimStartChar(s, '"'), '"')| <= |s|
    ensures (s != "" ==> s[0] != '"' && s[|s| - 1] != '"') ==> TrimEndChar(TrimStartChar(s, '"'), '"') == s
  {
    var a, b := TrimCharTakes(s, '"');
    var c, d := TrimCharTakes(TrimStartChar(s, '"'), '"');
    TrimStartCharShape(s, '"');
    TrimEndCharShape(s, '"');
  }

  /** Trimming an unquoted parameter touches the end of its value only. */
  lemma {:induction false} TrimUnquoted(key: string, value: string)
    requires Trimmed(key)
    ensures Trim(key + "=" + value) == key + "=" + TrimEnd(value)
    decreases |value|
  {
    var text := key + "=" + value;
    assert text[0] == if key == "" then '=' else key[0];
    assert TrimStart(text) == text;
    TrimEndOf(key + "=", value);
  }

  lemma {:induction false} TrimEndOf(head: string, value: string)
    requires head != "" && !IsSpace(head[|head| - 1])
    ensures TrimEnd(head + value) == head + TrimEnd(value)
    decreases |value|
  {
    if value == "" {
      assert head + value == head;
    } else if IsSpace(value[|value| - 1]) {
      assert (head + value)[..|head + value| - 1] == head + value[..|value| - 1];
      TrimEndOf(head, value[..|value| - 1]);
    }
  }

  lemma {:induction false} PadVanishes(text: string, pad: string)
    requires pad == "" || pad == " "
    ensures ParsePart(pad + text) == ParsePart(text)
  {
    assert pad == " " ==> (pad + text)[1..] == text && TrimStart(pad + text) == TrimStart(text);
    assert "" + text == text;
  }

  /** A printed parameter is read back under its key, with its value if and only if it is in quotes or trimmed. */
  lemma {:induction false} ReadsBack(p: Param, quoted: bool)
    requires Carried(p)
    ensures ',' !in PrintAs(p, quoted)
    ensures ParsePart(PrintAs(p, quoted)).Some? && ParsePart(PrintAs(p, quoted)).value.key == p.key
    ensures ParsePart(PrintAs(p, quoted)).value.value == p.value <==> CarriedAs(p, quoted)
  {
    hide Trim, SplitOnce, TrimStartChar, TrimEndChar, IsSpace, TrimEnd, Trimmed;
    if quoted {
      ParsePrinted(p, "");
      assert "" + PrintParam(p) == PrintAs(p, true);
    } else {
      TrimUnquoted(p.key, p.value);
      SplitOnceConcat(p.key, '=', TrimEnd(p.value));
      TrimShape(p.key);
      TrimShorter(p.value);
      UnquoteShorter(Trim(TrimEnd(p.value)));
    }
  }

  /** What the parser reads in place of the parameters. */
  function Read(ps: seq<Param>, quoted: seq<bool>): (rs: seq<Param>)
    requires |ps| == |quoted| && forall i :: 0 <= i < |ps| ==> ParsePart(PrintAs(ps[i], quoted[i])).Some?
    ensures |rs| == |ps|
  {
    seq(|ps|, i requires 0 <= i < |ps| => ParsePart(PrintAs(ps[i], quoted[i])).value)
  }

  lemma {:induction false} ReadAll(ps: seq<Param>, quoted: seq<bool>, n: nat)
    requires |ps| == |quoted| && n <= |ps|
    requires forall i :: 0 <= i < |ps| ==> ParsePart(PrintAs(ps[i], quoted[i])).Some?
    ensures ParseParts(PrintMixed(ps, quoted)[..n]) == AsMap(Read(ps, quoted)[..n])
  {
    hide ParsePart, PrintAs;
    if n > 0 {
      ReadAll(ps, quoted, n - 1);
      PadVanishes(PrintAs(ps[n - 1], quoted[n - 1]), if n == 1 then "" else " ");
      var all, rs := PrintMixed(ps, quoted), Read(ps, quoted);
      assert all[..n][..n - 1] == all[..n - 1] && all[..n][n - 1] == all[n - 1];
      assert rs[..n][..n - 1] == rs[..n - 1] && rs[..n][n - 1] == rs[n - 1];
    }
  }

  /** With quoted and unquoted values mixed, parsing gives the parameters back if and only if each is carried
      and each unquoted value is trimmed. */
  lemma {:induction false} RoundTripMixed(ps: seq<Param>, quoted: seq<bool>)
    requires DistinctKeys(ps) && ps != [] && |ps| == |quoted|
    ensures Parse(Join(PrintMixed(ps, quoted), ',')) == AsMap(ps) <==>
            forall i :: 0 <= i < |ps| ==> CarriedAs(ps[i], quoted[i])
  {
    hide ParsePart, PrintAs, Carried, CarriedAs, Parse, AsMap;
    if i :| 0 <= i < |ps| && !Carried(ps[i]) {
      LostParam(ps, Join(PrintMixed(ps, quoted), ','), i);
      NotCarriedAs(ps[i], quoted[i]);
    } else {
      MixedReads(ps, quoted);
    }
  }

  lemma {:induction false} NotCarriedAs(p: Param, quoted: bool)
    requires !Carried(p)
    ensures !CarriedAs(p, quoted)
  {
  }

  /** No text is read as a parameter that is not carried. */
  lemma {:induction false} LostParam(ps: seq<Param>, text: string, i: nat)
    requires DistinctKeys(ps) && i < |ps| && !Carried(ps[i])
    ensures Parse(text) != AsMap(ps)
  {
    hide Carried;
    ParsedPartsCarried(Split(text, ','));
    AsMapHas(ps, i);
    assert Param(ps[i].key, ps[i].value) == ps[i];
  }

  lemma {:induction false} MixedReads(ps: seq<Param>, quoted: seq<bool>)
    requires DistinctKeys(ps) && ps != [] && |ps| == |quoted| && forall i :: 0 <= i < |ps| ==> Carried(ps[i])
    ensures Parse(Join(PrintMixed(ps, quoted), ',')) == AsMap(ps) <==>
            forall i :: 0 <= i < |ps| ==> CarriedAs(ps[i], quoted[i])
  {
    hide ParsePart, PrintAs, Carried, CarriedAs, AsMap, ParseParts;
    forall i | 0 <= i < |ps|
      ensures var r := ParsePart(PrintAs(ps[i], quoted[i]));
              r.Some? && r.value.key == ps[i].key && (r.value.value == ps[i].value <==> CarriedAs(ps[i], quoted[i]))
      ensures ',' !in PrintMixed(ps, quoted)[i]
    {
      ReadsBack(ps[i], quoted[i]);
    }
    var rs := Read(ps, quoted);
    ReadAll(ps, quoted, |ps|);
    assert PrintMixed(ps, quoted)[..|ps|] == PrintMixed(ps, quoted) && rs[..|ps|] == rs;
    SplitJoin(PrintMixed(ps, quoted), ',');
    SameParams(ps, rs);
  }

  /** Parameters with the same distinct keys give the same map if and only if they are the same. */
  lemma {:induction false} SameParams(ps: seq<Param>, rs: seq<Param>)
    requires DistinctKeys(ps) && |rs| == |ps| && forall i :: 0 <= i < |ps| ==> rs[i].key == ps[i].key
    ensures AsMap(rs) == AsMap(ps) <==> rs == ps
  {
    if AsMap(rs) == AsMap(ps) {
      forall i | 0 <= i < |ps| ensures rs[i] == ps[i] {
        AsMapHas(ps, i);
        AsMapHas(rs, i);
      }
    }
  }

  // ----- the fields of a request ---------------------------------------------------------------------------------

  function Lookup(m: map<string, string>, key: string): Option<string> {
    if key in m then Some(m[key]) else None
  }

  /** The parameters of an Authorization header of the Digest scheme; None without the scheme or one of the five
      required ones. */
  function AuthOf(header: Option<string>): Option<DigestAuth> {
    if header.None? || !("Digest " <= header.value) then None
    else
      var m := Parse(header.value[7..]);
      match (Lookup(m, "username"), Lookup(m, "realm"), Lookup(m, "nonce"), Lookup(m, "uri"), Lookup(m, "response"))
      case (Some(username), Some(realm), Some(nonce), Some(uri), Some(response)) =>
        Some(DigestAuth(username, realm, nonce, uri, response, Lookup(m, "qop"), Lookup(m, "nc"), Lookup(m, "cnonce")))
      case _ => None
  }

  /** The parameters hold this value under the key, or nothing. */
  predicate Holds(ps: seq<Param>, key: string, value: Option<string>) {
    match value
    case Some(v) => Param(key, v) in ps
    case None => forall p :: p in ps ==> p.key != key
  }

  /** The parameters of these names are those of the request. */
  predicate Describes(ps: seq<Param>, auth: DigestAuth) {
    && Holds(ps, "username", Some(auth.username)) && Holds(ps, "realm", Some(auth.realm))
    && Holds(ps, "nonce", Some(auth.nonce)) && Holds(ps, "uri", Some(auth.uri))
    && Holds(ps, "response", Some(auth.response))
    && Holds(ps, "qop", auth.qop) && Holds(ps, "nc", auth.nc) && Holds(ps, "cnonce", auth.cnonce)
  }

  lemma {:induction false} AsMapKeys(ps: seq<Param>, key: string)
    ensures key in AsMap(ps) <==> exists p :: p in ps && p.key == key
  {
    if ps != [] {
      AsMapKeys(ps[..|ps| - 1], key);
      assert ps == ps[..|ps| - 1] + [ps[|ps| - 1]];
    }
  }

  lemma {:induction false} HeldIsFound(ps: seq<Param>, key: string, value: Option<string>)
    requires DistinctKeys(ps)
    ensures Lookup(AsMap(ps), key) == value <==> Holds(ps, key, value)
  {
    AsMapKeys(ps, key);
    forall p | p in ps ensures p.key in AsMap(ps) && AsMap(ps)[p.key] == p.value {
      var i :| 0 <= i < |ps| && ps[i] == p;
      AsMapHas(ps, i);
    }
    if key in AsMap(ps) {
      var p :| p in ps && p.key == key;
      assert Param(key, p.value) == p;
    }
  }

  /** A header printed from distinct parameters that survive gives a request if and only if it holds the request's
      fields, each under its own name and the optional ones only if they are there. */
  lemma {:induction false} AuthReadsBack(ps: seq<Param>, quoted: seq<bool>, auth: DigestAuth)
    requires DistinctKeys(ps) && ps != [] && |ps| == |quoted|
    requires forall i :: 0 <= i < |ps| ==> CarriedAs(ps[i], quoted[i])
    ensures AuthOf(Some("Digest " + Join(PrintMixed(ps, quoted), ','))) == Some(auth) <==> Describes(ps, auth)
  {
    hide CarriedAs, Parse, Join, PrintMixed, AsMap, Holds;
    var text := Join(PrintMixed(ps, quoted), ',');
    RoundTripMixed(ps, quoted);
    assert ("Digest " + text)[7..] == text;
    HeldIsFound(ps, "username", Some(auth.username));
    HeldIsFound(ps, "realm", Some(auth.realm));
    HeldIsFound(ps, "nonce", Some(auth.nonce));
    HeldIsFound(ps, "uri", Some(auth.uri));
    HeldIsFound(ps, "response", Some(auth.response));
    HeldIsFound(ps, "qop", auth.qop);
    HeldIsFound(ps, "nc", auth.nc);
    HeldIsFound(ps, "cnonce", auth.cnonce);
  }

  /** Without the scheme, or without one of the required parameters, there is no request. */
  lemma {:induction false} AuthMissing(ps: seq<Param>, quoted: seq<bool>, key: string)
    requires DistinctKeys(ps) && ps != [] && |ps| == |quoted|
    requires forall i :: 0 <= i < |ps| ==> CarriedAs(ps[i], quoted[i])
    requires key in {"username", "realm", "nonce", "uri", "response"} && Holds(ps, key, None)
    ensures AuthOf(Some("Digest " + Join(PrintMixed(ps, quoted), ','))) == None
    ensures AuthOf(None) == None
    ensures forall header: string :: !("Digest " <= header) ==> AuthOf(Some(header)) == None
  {
    hide CarriedAs, Parse, Join, PrintMixed, AsMap, Holds;
    var text := Join(PrintMixed(ps, quoted), ',');
    RoundTripMixed(ps, quoted);
    assert ("Digest " + text)[7..] == text;
    HeldIsFound(ps, key, None);
  }
}
