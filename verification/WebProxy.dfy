/** Fetching a URL for a peer: a bounded redirect loop, and the stream of messages it becomes
    (node-functions/src/web_proxy.rs, p2p-handlers/src/web_proxy.rs). */
module WebProxy {
  import opened Options
  import opened Chunks

  type Url = string

  datatype Verb = GET | POST | PUT | DELETE | PATCH | HEAD | OPTIONS

  datatype Request = Request(verb: Verb, url: Url, headers: map<string, string>, body: Option<seq<byte>>)

  /** A header value that is not text is None. */
  datatype Header = Header(name: string, value: Option<string>)

  /** The chunks of the body that could be read, and whether a read error cut it off. */
  datatype Response = Response(status: nat, location: Option<string>, headers: seq<Header>, body: seq<seq<byte>>,
                               cutOff: bool)

  datatype Answer = Answered(response: Response) | SendError(reason: string)

  /** The world of one run: URL parsing and joining, the address check made for each hop, and what the
      server of each hop answers. */
  datatype World = World(parse: string -> Option<Url>, join: (Url, string) -> Option<Url>,
                         refuse: (nat, Url) -> Option<string>, answer: (nat, Request) -> Answer,
                         utf8: string -> seq<byte>)

  const MAX_REDIRECTS: nat := 10

  /** to_lowercase, for the comparisons below: no character outside ASCII has a lower case that one of the
      names contains. */
  function LowerChar(c: char): char {
    if 'A' <= c <= 'Z' then (c as int + 32) as char else c
  }

  function Lower(s: string): string {
    seq(|s|, i requires 0 <= i < |s| => LowerChar(s[i]))
  }

  /** to_uppercase. Of the characters outside ASCII these are the only ones whose upper case is ASCII text;
      any other one stays outside, which is all that matters here. */
  function UpperChar(c: char): string {
    if 'a' <= c <= 'z' then [(c as int - 32) as char]
    else
      match c as int
      case 0xDF => "SS"
      case 0x131 => "I"
      case 0x17F => "S"
      case 0xFB00 => "FF"
      case 0xFB01 => "FI"
      case 0xFB02 => "FL"
      case 0xFB03 => "FFI"
      case 0xFB04 => "FFL"
      case 0xFB05 => "ST"
      case 0xFB06 => "ST"
      case _ => [c]
  }

  function Upper(s: string): string {
    if s == "" then "" else UpperChar(s[0]) + Upper(s[1..])
  }

  function VerbOf(s: string): Verb {
    var u := Upper(s);
    if u == "POST" then POST else if u == "PUT" then PUT else if u == "DELETE" then DELETE
    else if u == "PATCH" then PATCH else if u == "HEAD" then HEAD else if u == "OPTIONS" then OPTIONS
    else GET
  }

  function SentHeaders(headers: map<string, string>): map<string, string> {
    map k | k in headers && Lower(k) != "host" :: headers[k]
  }

  /** The text spells the word, in any mix of cases; word is in lower case. */
  predicate Spells(s: string, word: string) {
    && |s| == |word|
    && forall i :: 0 <= i < |s| ==> s[i] == word[i] || ('A' <= s[i] <= 'Z' && s[i] as int + 32 == word[i] as int)
  }

  predicate LowerCase(word: string) {
    forall i :: 0 <= i < |word| ==> 'a' <= word[i] <= 'z' || word[i] == '-'
  }

  lemma {:induction false} LowerSpells(s: string, word: string)
    requires LowerCase(word)
    ensures Lower(s) == word <==> Spells(s, word)
  {
    if Spells(s, word) {
      forall i | 0 <= i < |s| ensures Lower(s)[i] == word[i] {
      }
    }
    if Lower(s) == word {
      forall i | 0 <= i < |s|
        ensures s[i] == word[i] || ('A' <= s[i] <= 'Z' && s[i] as int + 32 == word[i] as int)
      {
        assert Lower(s)[i] == word[i];
      }
    }
  }

  /** Exactly the headers not called host are sent, with their values. */
  lemma {:induction false} SentExactly(headers: map<string, string>, k: string)
    ensures k in SentHeaders(headers) <==> k in headers && !Spells(k, "host")
    ensures k in SentHeaders(headers) ==> SentHeaders(headers)[k] == headers[k]
  {
    LowerSpells(k, "host");
  }

  predicate Ascii(s: string) {
    forall i :: 0 <= i < |s| ==> s[i] as int < 128
  }

  function UpperAscii(c: char): char {
    if 'a' <= c <= 'z' then (c as int - 32) as char else c
  }

  lemma {:induction false} UpperOfAscii(s: string)
    requires Ascii(s)
    ensures |Upper(s)| == |s| && forall i :: 0 <= i < |s| ==> Upper(s)[i] == UpperAscii(s[i])
  {
    if s != "" {
      UpperOfAscii(s[1..]);
    }
  }

  /** word is in upper case: the text spells it in any mix of cases. */
  predicate SpellsUpper(s: string, word: string) {
    && |s| == |word|
    && forall i :: 0 <= i < |s| ==> s[i] == word[i] || ('a' <= s[i] <= 'z' && s[i] as int - 32 == word[i] as int)
  }

  lemma {:induction false} UpperSpells(s: string, word: string)
    requires Ascii(s) && forall i :: 0 <= i < |word| ==> 'A' <= word[i] <= 'Z'
    ensures Upper(s) == word <==> SpellsUpper(s, word)
  {
    UpperOfAscii(s);
    if Upper(s) == word {
      forall i | 0 <= i < |s|
        ensures s[i] == word[i] || ('a' <= s[i] <= 'z' && s[i] as int - 32 == word[i] as int)
      {
        assert Upper(s)[i] == word[i];
      }
    }
    if SpellsUpper(s, word) {
      forall i | 0 <= i < |s| ensures Upper(s)[i] == word[i] {
      }
    }
  }

  /** Which texts name which method; all others mean GET. */
  lemma {:induction false} VerbExactly(s: string)
    requires Ascii(s)
    ensures VerbOf(s) == POST <==> SpellsUpper(s, "POST")
    ensures VerbOf(s) == PUT <==> SpellsUpper(s, "PUT")
    ensures VerbOf(s) == DELETE <==> SpellsUpper(s, "DELETE")
    ensures VerbOf(s) == PATCH <==> SpellsUpper(s, "PATCH")
    ensures VerbOf(s) == HEAD <==> SpellsUpper(s, "HEAD")
    ensures VerbOf(s) == OPTIONS <==> SpellsUpper(s, "OPTIONS")
  {
    hide Upper, SpellsUpper;
    UpperSpells(s, "POST");
    UpperSpells(s, "PUT");
    UpperSpells(s, "DELETE");
    UpperSpells(s, "PATCH");
    UpperSpells(s, "HEAD");
    UpperSpells(s, "OPTIONS");
  }

  lemma {:induction false} UpperConcat(a: string, b: string)
    ensures Upper(a + b) == Upper(a) + Upper(b)
  {
    if a == "" {
      assert a + b == b;
    } else {
      assert (a + b)[1..] == a[1..] + b;
      UpperConcat(a[1..], b);
    }
  }

  lemma {:induction false} UpperOne(c: char)
    ensures Upper([c]) == UpperChar(c)
  {
    assert [c][1..] == "";
  }

  /** Outside ASCII: a long s spells an s, a dotless i an i, a sharp s two s, and each ligature its letters. */
  lemma {:induction false} OtherSpellings(a: string, b: string)
    ensures VerbOf(a + "\U{17f}" + b) == VerbOf(a + "s" + b)
    ensures VerbOf(a + "\U{131}" + b) == VerbOf(a + "i" + b)
    ensures VerbOf(a + "\U{df}" + b) == VerbOf(a + "ss" + b)
    ensures VerbOf(a + "\U{fb05}" + b) == VerbOf(a + "st" + b) == VerbOf(a + "\U{fb06}" + b)
    ensures VerbOf(a + "\U{fb00}" + b) == VerbOf(a + "ff" + b)
    ensures VerbOf(a + "\U{fb01}" + b) == VerbOf(a + "fi" + b) && VerbOf(a + "\U{fb02}" + b) == VerbOf(a + "fl" + b)
    ensures VerbOf(a + "\U{fb03}" + b) == VerbOf(a + "ffi" + b) && VerbOf(a + "\U{fb04}" + b) == VerbOf(a + "ffl" + b)
  {
    hide Upper;
    forall x, y | Upper(x) == Upper(y) ensures VerbOf(a + x + b) == VerbOf(a + y + b) {
      UpperConcat(a + x, b);
      UpperConcat(a, x);
      UpperConcat(a + y, b);
      UpperConcat(a, y);
    }
    Letters();
  }

  lemma {:induction false} Letters()
    ensures Upper("\U{17f}") == Upper("s") && Upper("\U{131}") == Upper("i") && Upper("\U{df}") == Upper("ss")
    ensures Upper("\U{fb05}") == Upper("st") == Upper("\U{fb06}") && Upper("\U{fb00}") == Upper("ff")
    ensures Upper("\U{fb01}") == Upper("fi") && Upper("\U{fb02}") == Upper("fl")
    ensures Upper("\U{fb03}") == Upper("ffi") && Upper("\U{fb04}") == Upper("ffl")
  {
    UpperOne('\U{17f}');
    UpperOne('\U{131}');
    UpperOne('\U{df}');
    UpperOne('\U{fb00}');
    UpperOne('\U{fb01}');
    UpperOne('\U{fb02}');
    UpperOne('\U{fb03}');
    UpperOne('\U{fb04}');
    UpperOne('\U{fb05}');
    UpperOne('\U{fb06}');
    UpperOne('s');
    UpperOne('i');
    Two('s', 's');
    Two('s', 't');
    Two('f', 'f');
    Two('f', 'i');
    Two('f', 'l');
    Three('f', 'f', 'i');
    Three('f', 'f', 'l');
  }

  lemma {:induction false} Two(c: char, d: char)
    requires 'a' <= c <= 'z' && 'a' <= d <= 'z'
    ensures Upper([c, d]) == [UpperAscii(c), UpperAscii(d)]
  {
    UpperOfAscii([c, d]);
  }

  lemma {:induction false} Three(c: char, d: char, e: char)
    requires 'a' <= c <= 'z' && 'a' <= d <= 'z' && 'a' <= e <= 'z'
    ensures Upper([c, d, e]) == [UpperAscii(c), UpperAscii(d), UpperAscii(e)]
  {
    UpperOfAscii([c, d, e]);
  }

  // ----- the redirect loop -----------------------------------------------------------------------------------

  /** Where a response redirects to. */
  function Next(w: World, from: Url, r: Response): Option<Url> {
    if 300 <= r.status < 400 && r.location.Some? then w.join(from, r.location.value) else None
  }

  predicate KeepsRequest(status: nat) {
    status == 307 || status == 308
  }

  function NextRequest(req: Request, status: nat, url: Url): Request {
    if KeepsRequest(status) then req.(url := url) else Request(GET, url, req.headers, None)
  }

  datatype Outcome = Final(response: Response) | Failed(reason: string) | TooMany

  datatype Trace = Trace(requests: seq<Request>, outcome: Outcome)

  /** The requests from hop k on, and how they end. */
  function Follow(w: World, k: nat, req: Request): Trace
    decreases MAX_REDIRECTS + 1 - k
  {
    if k > MAX_REDIRECTS then Trace([], TooMany)
    else
      match w.refuse(k, req.url)
      case Some(e) => Trace([], Failed(e))
      case None =>
        match w.answer(k, req)
        case SendError(e) => Trace([req], Failed(e))
        case Answered(r) =>
          match Next(w, req.url, r)
          case None => Trace([req], Final(r))
          case Some(url) =>
            var t := Follow(w, k + 1, NextRequest(req, r.status, url));
            Trace([req] + t.requests, t.outcome)
  }

  /** Where hop k's answer to a request redirects to. */
  function NextOf(w: World, k: nat, req: Request): Option<Url> {
    match w.answer(k, req)
    case SendError(_) => None
    case Answered(r) => Next(w, req.url, r)
  }

  predicate Keeps(w: World, k: nat, req: Request) {
    w.answer(k, req).Answered? && KeepsRequest(w.answer(k, req).response.status)
  }

  /** Every answer to the first n requests, the first of which is hop k's, keeps method and body. */
  predicate AllKeep(w: World, k: nat, reqs: seq<Request>, n: nat)
    requires n <= |reqs|
  {
    forall j :: 0 <= j < n ==> Keeps(w, k + j, reqs[j])
  }

  /** Each request's own address was checked for its own hop. */
  predicate Checked(w: World, k: nat, reqs: seq<Request>) {
    forall i :: 0 <= i < |reqs| ==> w.refuse(k + i, reqs[i].url) == None
  }

  /** Each further request goes where the answer before it pointed. */
  predicate Chained(w: World, k: nat, reqs: seq<Request>) {
    forall i :: 0 <= i < |reqs| - 1 ==> NextOf(w, k + i, reqs[i]) == Some(reqs[i + 1].url)
  }

  /** Request i carries the original method and body while every redirect so far was a 307 or 308, and
      is a GET without a body from the first other one on. */
  predicate Carries(w: World, k: nat, reqs: seq<Request>, req: Request) {
    forall i :: 0 <= i < |reqs| ==>
      && reqs[i].headers == req.headers
      && if AllKeep(w, k, reqs, i) then reqs[i].verb == req.verb && reqs[i].body == req.body
         else reqs[i].verb == GET && reqs[i].body == None
  }

  predicate AllRedirect(w: World, k: nat, reqs: seq<Request>) {
    forall i :: 0 <= i < |reqs| ==> NextOf(w, k + i, reqs[i]).Some?
  }

  /** Over any server behaviour. */
  lemma {:induction false} RedirectLoop(w: World, k: nat, req: Request)
    requires k <= MAX_REDIRECTS + 1
    ensures var Trace(reqs, outcome) := Follow(w, k, req);
            && k + |reqs| <= MAX_REDIRECTS + 1
            && (reqs != [] ==> reqs[0] == req)
            && Checked(w, k, reqs) && Chained(w, k, reqs) && Carries(w, k, reqs, req)
            && (outcome == TooMany <==> k + |reqs| == MAX_REDIRECTS + 1 && AllRedirect(w, k, reqs))
    decreases MAX_REDIRECTS + 1 - k
  {
    hide Checked, Chained, Carries, AllRedirect;
    if k > MAX_REDIRECTS || w.refuse(k, req.url).Some? {
      NoRequests(w, k, req);
    } else if NextOf(w, k, req).None? {
      OneRequest(w, k, req);
    } else {
      var next := NextRequest(req, w.answer(k, req).response.status, NextOf(w, k, req).value);
      RedirectLoop(w, k + 1, next);
      var rest := Follow(w, k + 1, next).requests;
      PrependChecked(w, k, req, rest);
      PrependChained(w, k, req, rest);
      PrependCarries(w, k, req, next, rest);
      PrependRedirect(w, k, req, rest);
    }
  }

  lemma {:induction false} NoRequests(w: World, k: nat, req: Request)
    ensures Checked(w, k, []) && Chained(w, k, []) && Carries(w, k, [], req) && AllRedirect(w, k, [])
  {
  }

  lemma {:induction false} OneRequest(w: World, k: nat, req: Request)
    requires w.refuse(k, req.url) == None && NextOf(w, k, req) == None
    ensures Checked(w, k, [req]) && Chained(w, k, [req]) && Carries(w, k, [req], req)
    ensures !AllRedirect(w, k, [req])
  {
    assert [req][0] == req;
    assert AllKeep(w, k, [req], 0);
  }

  lemma {:induction false} PrependChecked(w: World, k: nat, req: Request, rest: seq<Request>)
    requires w.refuse(k, req.url) == None && Checked(w, k + 1, rest)
    ensures Checked(w, k, [req] + rest)
  {
  }

  lemma {:induction false} PrependChained(w: World, k: nat, req: Request, rest: seq<Request>)
    requires rest != [] ==> NextOf(w, k, req) == Some(rest[0].url)
    requires Chained(w, k + 1, rest)
    ensures Chained(w, k, [req] + rest)
  {
  }

  lemma {:induction false} PrependRedirect(w: World, k: nat, req: Request, rest: seq<Request>)
    requires NextOf(w, k, req).Some?
    ensures AllRedirect(w, k, [req] + rest) <==> AllRedirect(w, k + 1, rest)
  {
    hide NextOf;
    var reqs := [req] + rest;
    if AllRedirect(w, k, reqs) {
      forall i | 0 <= i < |rest| ensures NextOf(w, k + 1 + i, rest[i]).Some? {
        assert NextOf(w, k + (i + 1), reqs[i + 1]).Some?;
      }
    }
  }

  lemma {:induction false} PrependCarries(w: World, k: nat, req: Request, next: Request, rest: seq<Request>)
    requires NextOf(w, k, req).Some?
    requires next == NextRequest(req, w.answer(k, req).response.status, next.url)
    requires Carries(w, k + 1, rest, next)
    ensures Carries(w, k, [req] + rest, req)
  {
    hide AllKeep;
    var reqs := [req] + rest;
    forall i | 0 <= i < |reqs|
      ensures reqs[i].headers == req.headers
      ensures if AllKeep(w, k, reqs, i) then reqs[i].verb == req.verb && reqs[i].body == req.body
              else reqs[i].verb == GET && reqs[i].body == None
    {
      if i > 0 {
        KeepShift(w, k, req, rest, i);
      } else {
        NoneKeep(w, k, reqs);
      }
    }
  }

  lemma {:induction false} NoneKeep(w: World, k: nat, reqs: seq<Request>)
    ensures AllKeep(w, k, reqs, 0)
  {
  }

  lemma {:induction false} KeepShift(w: World, k: nat, req: Request, rest: seq<Request>, i: nat)
    requires 0 < i <= |rest|
    ensures AllKeep(w, k, [req] + rest, i) <==> Keeps(w, k, req) && AllKeep(w, k + 1, rest, i - 1)
  {
    var reqs := [req] + rest;
    assert reqs[0] == req && k + 0 == k;
    assert forall j :: 0 < j < i ==> reqs[j] == rest[j - 1] && k + j == k + 1 + (j - 1);
    if AllKeep(w, k, reqs, i) {
      forall j | 0 <= j < i - 1 ensures Keeps(w, k + 1 + j, rest[j]) {
        assert reqs[j + 1] == rest[j] && k + (j + 1) == k + 1 + j;
      }
    }
  }

  // ----- which answers redirect, and where to ------------------------------------------------------------------

  /** The answer to request i of a run, if it is one. */
  predicate AnsweredWith(w: World, reqs: seq<Request>, i: nat, r: Response) {
    i < |reqs| && w.answer(i, reqs[i]) == Answered(r)
  }

  /** The response redirects to this address: a status from 300 to 399 and a location that can be joined to the
      address of the request. */
  predicate RedirectsTo(w: World, from: Url, r: Response, to: Url) {
    300 <= r.status && r.status <= 399 && r.location.Some? && w.join(from, r.location.value) == Some(to)
  }

  predicate Redirects(w: World, from: Url, r: Response) {
    300 <= r.status && r.status <= 399 && r.location.Some? && w.join(from, r.location.value).Some?
  }

  /** Request i + 1 is what a client makes of the answer to request i: the method, headers and body stay after a
      307 or 308; after any other redirect it is a GET with the same headers and no body. */
  predicate Succeeds(w: World, reqs: seq<Request>, i: nat) {
    && i + 1 < |reqs| && w.answer(i, reqs[i]).Answered?
    && (var r, next := w.answer(i, reqs[i]).response, reqs[i + 1];
        && RedirectsTo(w, reqs[i].url, r, next.url)
        && next.headers == reqs[i].headers
        && if r.status == 307 || r.status == 308 then next.verb == reqs[i].verb && next.body == reqs[i].body
           else next.verb == GET && next.body == None)
  }

  /** The address the n-th request goes to, had it been made: the original one, or where the last answer points. */
  ghost predicate NextAddress(w: World, first: Request, reqs: seq<Request>, url: Url) {
    if reqs == [] then url == first.url
    else
      var i := |reqs| - 1;
      w.answer(i, reqs[i]).Answered? && RedirectsTo(w, reqs[i].url, w.answer(i, reqs[i]).response, url)
  }

  /** How a run ends, read off its last request. */
  ghost predicate EndsAs(w: World, first: Request, reqs: seq<Request>, outcome: Outcome) {
    match outcome
    case Final(r) =>
      && reqs != [] && AnsweredWith(w, reqs, |reqs| - 1, r)
      && !Redirects(w, reqs[|reqs| - 1].url, r)
    case Failed(e) =>
      || (reqs != [] && w.answer(|reqs| - 1, reqs[|reqs| - 1]) == SendError(e))
      || (|reqs| <= 10 && exists url :: NextAddress(w, first, reqs, url) && w.refuse(|reqs|, url) == Some(e))
    case TooMany => |reqs| == 11 && exists url :: NextAddress(w, first, reqs, url)
  }

  /** A run continued: the requests so far, the next one to make, and the rest of the trace. */
  lemma {:induction false} FollowFrom(w: World, first: Request, before: seq<Request>, req: Request)
    requires |before| <= 11
    requires NextAddress(w, first, before, req.url)
    requires before == [] ==> req == first
    requires forall i :: 0 <= i < |before| - 1 ==> Succeeds(w, before, i)
    requires before != [] ==> Succeeds(w, before + [req], |before| - 1)
    requires forall i :: 0 <= i < |before| ==> w.refuse(i, before[i].url) == None
    ensures var t := Follow(w, |before|, req);
            var reqs := before + t.requests;
            && (reqs != [] ==> reqs[0] == if before == [] then first else before[0])
            && (forall i :: 0 <= i < |reqs| - 1 ==> Succeeds(w, reqs, i))
            && (forall i :: 0 <= i < |reqs| ==> w.refuse(i, reqs[i].url) == None)
            && EndsAs(w, first, reqs, t.outcome)
    decreases 11 - |before|
  {
    hide Succeeds, Follow;
    var k := |before|;
    if k == 11 {
      FollowEnd(w, req);
      assert before + [] == before;
    } else {
      FollowStep(w, k, req);
      assert before + [] == before;
      if w.refuse(k, req.url) == None {
        var more := before + [req];
        MoreSucceed(w, before, req);
        match w.answer(k, req)
        case SendError(e) =>
        case Answered(r) =>
          match Next(w, req.url, r)
          case None =>
          case Some(url) =>
            var next := NextRequest(req, r.status, url);
            NextSucceeds(w, more, next, url);
            FollowFrom(w, first, more, next);
            assert more + Follow(w, k + 1, next).requests == before + ([req] + Follow(w, k + 1, next).requests);
      }
    }
  }

  lemma {:induction false} MoreSucceed(w: World, before: seq<Request>, req: Request)
    requires forall i :: 0 <= i < |before| - 1 ==> Succeeds(w, before, i)
    requires before != [] ==> Succeeds(w, before + [req], |before| - 1)
    ensures forall i :: 0 <= i < |before| ==> Succeeds(w, before + [req], i)
  {
    var more := before + [req];
    forall i | 0 <= i < |before| - 1 ensures Succeeds(w, more, i) {
      assert Succeeds(w, before, i);
      assert more[i] == before[i] && more[i + 1] == before[i + 1];
    }
  }

  lemma {:induction false} NextSucceeds(w: World, more: seq<Request>, next: Request, url: Url)
    requires more != [] && w.answer(|more| - 1, more[|more| - 1]).Answered?
    requires var r := w.answer(|more| - 1, more[|more| - 1]).response;
             RedirectsTo(w, more[|more| - 1].url, r, url) && next == NextRequest(more[|more| - 1], r.status, url)
    ensures Succeeds(w, more + [next], |more| - 1)
  {
  }

  /** A whole run, without the functions of the loop: the first request is the given one; each further one goes
      where the answer before it redirects, with the method and body that its status asks for; none goes to a
      refused address. The outcome is the last answer if and only if that does not redirect, the error of a
      failed or refused request, or too many redirects after eleven that all redirect. */
  lemma {:induction false} RunExactly(w: World, req: Request)
    ensures var Trace(reqs, outcome) := Follow(w, 0, req);
            && |reqs| <= 11 && (reqs != [] ==> reqs[0] == req)
            && (forall i :: 0 <= i < |reqs| - 1 ==> Succeeds(w, reqs, i))
            && (forall i :: 0 <= i < |reqs| ==> w.refuse(i, reqs[i].url) == None)
            && EndsAs(w, req, reqs, outcome)
  {
    hide Follow, Succeeds, EndsAs, Checked, Chained, Carries, AllRedirect;
    FollowFrom(w, req, [], req);
    RedirectLoop(w, 0, req);
    assert [] + Follow(w, 0, req).requests == Follow(w, 0, req).requests;
  }

  // ----- the method of the next request ------------------------------------------------------------------------

  /** What sections 15.4.2 to 15.4.4, 15.4.8 and 15.4.9 of RFC 9110 say about the method after a redirect;
      other codes leave it open. */
  predicate Permitted(status: nat, before: Verb, after: Verb) {
    if status == 301 || status == 302 then after == before || (before == POST && after == GET)
    else if status == 303 then after == GET || after == HEAD
    else if status == 307 || status == 308 then after == before
    else true
  }

  /** One hop: the method is kept only after 307 and 308, or when it is GET anyway, and it is a permitted one
      exactly when the code is not 301 or 302 or the method was GET or POST. */
  lemma {:induction false} HopMethod(req: Request, status: nat, url: Url)
    ensures var next := NextRequest(req, status, url);
            && (next.verb == req.verb <==> KeepsRequest(status) || req.verb == GET)
            && (Permitted(status, req.verb, next.verb) <==>
                (status != 301 && status != 302) || req.verb == GET || req.verb == POST)
  {
  }

  predicate Moved(w: World, k: nat, req: Request) {
    w.answer(k, req).Answered? && (w.answer(k, req).response.status == 301 || w.answer(k, req).response.status == 302)
  }

  predicate PermittedAt(w: World, reqs: seq<Request>, i: nat) {
    && i + 1 < |reqs| && w.answer(i, reqs[i]).Answered?
    && Permitted(w.answer(i, reqs[i]).response.status, reqs[i].verb, reqs[i + 1].verb)
  }

  /** A whole run: every further request uses a permitted method if and only if the original one was a GET
      or a POST or the first redirect that is not a 307 or 308 is not a 301 or 302 either. */
  lemma {:induction false} RunMethods(w: World, req: Request)
    ensures var reqs := Follow(w, 0, req).requests;
            (forall i :: 0 <= i < |reqs| - 1 ==> PermittedAt(w, reqs, i)) <==>
            || req.verb == GET || req.verb == POST
            || (forall i :: 0 <= i < |reqs| - 1 && AllKeep(w, 0, reqs, i) ==> !Moved(w, i, reqs[i]))
  {
    hide Follow, AllKeep;
    var reqs := Follow(w, 0, req).requests;
    RedirectLoop(w, 0, req);
    forall i | 0 <= i < |reqs| - 1
      ensures PermittedAt(w, reqs, i) <==>
              req.verb == GET || req.verb == POST || !AllKeep(w, 0, reqs, i) || !Moved(w, i, reqs[i])
    {
      assert NextOf(w, 0 + i, reqs[i]) == Some(reqs[i + 1].url);
      KeepNext(w, reqs, i);
    }
  }

  lemma {:induction false} KeepNext(w: World, reqs: seq<Request>, i: nat)
    requires i < |reqs|
    ensures AllKeep(w, 0, reqs, i + 1) <==> AllKeep(w, 0, reqs, i) && Keeps(w, i, reqs[i])
  {
    if AllKeep(w, 0, reqs, i + 1) {
      assert Keeps(w, 0 + i, reqs[i]);
    }
  }

  // ----- the events of one run ---------------------------------------------------------------------------------

  datatype Event =
    | ResponseStart(status: nat, headers: map<string, string>)
    | Chunk(data: seq<byte>)
    | Complete
    | Error(reason: string)

  predicate Dropped(name: string) {
    || Lower(name) == "x-frame-options"
    || Lower(name) == "content-security-policy"
    || Lower(name) == "strict-transport-security"
  }

  /** The headers passed on: later duplicates win. */
  function PassedOn(headers: seq<Header>): map<string, string> {
    if headers == [] then map[]
    else
      var before, h := PassedOn(headers[..|headers| - 1]), headers[|headers| - 1];
      if Dropped(h.name) || h.value.None? then before else before[h.name := h.value.value]
  }

  /** A response header is passed on if and only if its value is text and it is not one of three; among several
      of one name the last text counts. */
  lemma {:induction false} PassedOnExactly(headers: seq<Header>, name: string)
    ensures var dropped := Spells(name, "x-frame-options") || Spells(name, "content-security-policy")
                           || Spells(name, "strict-transport-security");
            name in PassedOn(headers) <==> !dropped && exists i :: IsLast(headers, i, name)
    ensures forall i :: IsLast(headers, i, name) && name in PassedOn(headers) ==>
              PassedOn(headers)[name] == headers[i].value.value
  {
    LowerSpells(name, "x-frame-options");
    LowerSpells(name, "content-security-policy");
    LowerSpells(name, "strict-transport-security");
    assert Dropped(name) <==> Spells(name, "x-frame-options") || Spells(name, "content-security-policy")
                              || Spells(name, "strict-transport-security");
    PassedOnLast(headers, name);
  }

  lemma {:induction false} PassedOnLast(headers: seq<Header>, name: string)
    ensures name in PassedOn(headers) <==> !Dropped(name) && exists i :: IsLast(headers, i, name)
    ensures forall i :: IsLast(headers, i, name) && name in PassedOn(headers) ==>
              PassedOn(headers)[name] == headers[i].value.value
  {
    hide Dropped, IsLast;
    if headers == [] {
      NoneLast(name);
    } else {
      PassedOnLast(headers[..|headers| - 1], name);
      LastSnoc(headers, name);
    }
  }

  lemma {:induction false} NoneLast(name: string)
    ensures forall i :: !IsLast([], i, name)
  {
  }

  lemma {:induction false} LastSnoc(headers: seq<Header>, name: string)
    requires headers != []
    ensures var n := |headers| - 1;
            forall i :: IsLast(headers, i, name) <==>
              if headers[n].name == name && headers[n].value.Some? then i == n else IsLast(headers[..n], i, name)
    ensures forall i :: IsLast(headers, i, name) ==> 0 <= i < |headers| && headers[i].value.Some?
    ensures forall i :: IsLast(headers[..|headers| - 1], i, name) ==>
              0 <= i < |headers| - 1 && headers[..|headers| - 1][i] == headers[i]
  {
    hide IsLast;
    forall i ensures IsLast(headers, i, name) <==>
                     if HasText(headers[|headers| - 1], name) then i == |headers| - 1
                     else IsLast(headers[..|headers| - 1], i, name)
             ensures IsLast(headers, i, name) ==> 0 <= i < |headers| && headers[i].value.Some?
             ensures IsLast(headers[..|headers| - 1], i, name) ==>
                       0 <= i < |headers| - 1 && headers[..|headers| - 1][i] == headers[i]
    {
      LastStep(headers, name, i);
    }
  }

  predicate HasText(h: Header, name: string) {
    h.name == name && h.value.Some?
  }

  lemma {:induction false} LastStep(headers: seq<Header>, name: string, i: int)
    requires headers != []
    ensures var n := |headers| - 1;
            IsLast(headers, i, name) <==>
            if headers[n].name == name && headers[n].value.Some? then i == n else IsLast(headers[..n], i, name)
    ensures IsLast(headers, i, name) ==> 0 <= i < |headers| && headers[i].value.Some?
    ensures IsLast(headers[..|headers| - 1], i, name) ==>
              0 <= i < |headers| - 1 && headers[..|headers| - 1][i] == headers[i]
  {
    var n := |headers| - 1;
    var init := headers[..n];
    assert forall j :: 0 <= j < n ==> init[j] == headers[j];
    if IsLast(headers, i, name) && i < n {
      assert !HasText(headers[n], name);
      forall j | i < j < n ensures !HasText(init[j], name) {
        assert !HasText(headers[j], name);
      }
    }
    if IsLast(init, i, name) && !HasText(headers[n], name) {
      forall j | i < j < |headers| ensures !HasText(headers[j], name) {
        assert j < n ==> !HasText(init[j], name);
      }
    }
  }

  /** Header i is the last of this name with a text for a value. */
  predicate IsLast(headers: seq<Header>, i: int, name: string) {
    0 <= i < |headers| && HasText(headers[i], name) && forall j :: i < j < |headers| ==> !HasText(headers[j], name)
  }

  function ChunkEvents(body: seq<seq<byte>>): seq<Event> {
    seq(|body|, i requires 0 <= i < |body| => Event.Chunk(body[i]))
  }

  const TOO_MANY := "Too many redirects"

  function EventsOf(outcome: Outcome): seq<Event> {
    match outcome
    case Failed(e) => [Error(e)]
    case TooMany => [Error(TOO_MANY)]
    case Final(r) => [ResponseStart(r.status, PassedOn(r.headers))] + ChunkEvents(r.body) + [Complete]
  }

  function FirstRequest(verb: string, url: Url, headers: map<string, string>, body: Option<seq<byte>>): Request {
    Request(VerbOf(verb), url, SentHeaders(headers), body)
  }

  /** What a receiver takes that goes away after the first n events. */
  function Firsts(events: seq<Event>, n: nat): seq<Event> {
    if n < |events| then events[..n] else events
  }

  /** The start with the filtered headers, every chunk, and the completion, as long as the receiver takes
      them. */
  method PassResponse(r: Response, taken: nat) returns (events: seq<Event>)
    ensures events == Firsts(EventsOf(Final(r)), taken)
  {
    hide Dropped;
    var passed := map[];
    for i := 0 to |r.headers|
      invariant passed == PassedOn(r.headers[..i])
    {
      var h := r.headers[i];
      assert r.headers[..i + 1][..i] == r.headers[..i];
      if !Dropped(h.name) && h.value.Some? {
        passed := passed[h.name := h.value.value];
      }
    }
    assert r.headers[..|r.headers|] == r.headers;
    events := [];
    if taken == 0 {
      return;
    }
    events := [ResponseStart(r.status, passed)];
    for i := 0 to |r.body|
      invariant i < taken
      invariant events == [ResponseStart(r.status, passed)] + ChunkEvents(r.body[..i])
    {
      if |events| == taken {
        assert events == EventsOf(Final(r))[..taken];
        return;
      }
      events := events + [Event.Chunk(r.body[i])];
    }
    assert r.body[..|r.body|] == r.body;
    if |events| < taken {
      events := events + [Complete];
    } else {
      assert events == EventsOf(Final(r))[..taken];
    }
  }

  /** The redirect loop: at most 11 hops, each with the current method, target and body. */
  method FollowRedirects(w: World, first: Request) returns (requests: seq<Request>, outcome: Outcome)
    ensures Trace(requests, outcome) == Follow(w, 0, first)
  {
    hide Next, Follow;
    requests := [];
    var verb, target, body := first.verb, first.url, first.body;
    ghost var all := Follow(w, 0, first);
    for hop := 0 to MAX_REDIRECTS + 1
      invariant var rest := Follow(w, hop, Request(verb, target, first.headers, body));
                all.requests == requests + rest.requests && all.outcome == rest.outcome
    {
      ghost var before := requests;
      FollowStep(w, hop, Request(verb, target, first.headers, body));
      var refusal := w.refuse(hop, target);
      if refusal.Some? {
        return requests, Failed(refusal.value);
      }
      var req := Request(verb, target, first.headers, body);
      var answer := w.answer(hop, req);
      requests := requests + [req];
      if answer.SendError? {
        return requests, Failed(answer.reason);
      }
      var next := Next(w, target, answer.response);
      if next.None? {
        return requests, Final(answer.response);
      }
      if !KeepsRequest(answer.response.status) {
        verb, body := GET, None;
      }
      target := next.value;
      ghost var rest := Follow(w, hop + 1, Request(verb, target, first.headers, body));
      assert before + ([req] + rest.requests) == requests + rest.requests;
    }
    FollowEnd(w, Request(verb, target, first.headers, body));
    outcome := TooMany;
  }

  lemma {:induction false} FollowStep(w: World, k: nat, req: Request)
    requires k <= MAX_REDIRECTS
    ensures var t, refusal := Follow(w, k, req), w.refuse(k, req.url);
            if refusal.Some? then t == Trace([], Failed(refusal.value))
            else
              match w.answer(k, req)
              case SendError(e) => t == Trace([req], Failed(e))
              case Answered(r) =>
                match Next(w, req.url, r)
                case None => t == Trace([req], Final(r))
                case Some(url) =>
                  var rest := Follow(w, k + 1, NextRequest(req, r.status, url));
                  t.requests == [req] + rest.requests && t.outcome == rest.outcome
  {
  }

  lemma {:induction false} FollowEnd(w: World, req: Request)
    ensures Follow(w, MAX_REDIRECTS + 1, req) == Trace([], TooMany)
  {
  }

  /** The whole run, for a receiver that takes the first so many events. */
  method ExecuteProxiedRequest(w: World, verb: string, url: string, headers: map<string, string>,
                               body: Option<seq<byte>>, taken: nat)
    returns (events: seq<Event>, requests: seq<Request>)
    ensures w.parse(url).None? ==> requests == [] && exists e :: events == Firsts([Error(e)], taken)
    ensures w.parse(url).Some? ==>
              var t := Follow(w, 0, FirstRequest(verb, w.parse(url).value, headers, body));
              requests == t.requests && events == Firsts(EventsOf(t.outcome), taken)
    ensures requests != [] ==>
              && w.parse(url) == Some(requests[0].url) && requests[0].verb == VerbOf(verb)
              && requests[0].headers == SentHeaders(headers) && requests[0].body == body
  {
    if w.parse(url).Some? {
      RunExactly(w, FirstRequest(verb, w.parse(url).value, headers, body));
    }
    hide Follow, PassedOn, ChunkEvents;
    var parsed := w.parse(url);
    if parsed.None? {
      return Firsts([Error("invalid URL")], taken), [];
    }
    var outcome;
    requests, outcome := FollowRedirects(w, FirstRequest(verb, parsed.value, headers, body));
    match outcome {
      case Failed(e) => events := Firsts([Error(e)], taken);
      case TooMany => events := Firsts([Error(TOO_MANY)], taken);
      case Final(r) => events := PassResponse(r, taken);
    }
  }

  // ----- the messages to the peer --------------------------------------------------------------------------------

  datatype Msg = HttpStart(status: nat, headers: map<string, string>) | HttpChunk(chunk: seq<byte>) | HttpComplete

  const MAX_PAYLOAD: nat := 60000

  /** The slices of a chunk from an offset on. */
  function Slices(chunk: seq<byte>, from: nat): seq<Msg>
    requires from <= |chunk|
    decreases |chunk| - from
  {
    if from == |chunk| then []
    else
      var end := if from + MAX_PAYLOAD < |chunk| then from + MAX_PAYLOAD else |chunk|;
      [HttpChunk(chunk[from..end])] + Slices(chunk, end)
  }

  function MessagesOf(w: World, e: Event): seq<Msg> {
    match e
    case ResponseStart(status, headers) => [HttpStart(status, headers)]
    case Chunk(data) => Slices(data, 0)
    case Complete => [HttpComplete]
    case Error(reason) =>
      [HttpStart(502, map["Content-Type" := "text/plain"]), HttpChunk(w.utf8("Proxy Error: " + reason)), HttpComplete]
  }

  function Messages(w: World, events: seq<Event>): seq<Msg> {
    if events == [] then []
    else Messages(w, events[..|events| - 1]) + MessagesOf(w, events[|events| - 1])
  }

  method ForwardEvents(w: World, events: seq<Event>) returns (sent: seq<Msg>)
    ensures sent == Messages(w, events)
  {
    hide Slices;
    sent := [];
    for i := 0 to |events|
      invariant sent == Messages(w, events[..i])
    {
      assert events[..i + 1][..i] == events[..i];
      match events[i] {
        case ResponseStart(status, headers) =>
          sent := sent + [HttpStart(status, headers)];
        case Chunk(data) =>
          var slices := SendSlices(data);
          sent := sent + slices;
        case Complete =>
          sent := sent + [HttpComplete];
        case Error(reason) =>
          sent := sent + [HttpStart(502, map["Content-Type" := "text/plain"]),
                          HttpChunk(w.utf8("Proxy Error: " + reason)), HttpComplete];
      }
    }
    assert events[..|events|] == events;
  }

  method SendSlices(chunk: seq<byte>) returns (sent: seq<Msg>)
    ensures sent == Slices(chunk, 0)
  {
    sent := [];
    var offset: nat := 0;
    while offset < |chunk|
      invariant offset <= |chunk| && sent + Slices(chunk, offset) == Slices(chunk, 0)
    {
      var end := if offset + MAX_PAYLOAD < |chunk| then offset + MAX_PAYLOAD else |chunk|;
      assert sent + Slices(chunk, offset) == sent + [HttpChunk(chunk[offset..end])] + Slices(chunk, end);
      sent := sent + [HttpChunk(chunk[offset..end])];
      offset := end;
    }
  }

  // ----- the stream the peer sees ----------------------------------------------------------------------------------

  function Payload(ms: seq<Msg>): seq<byte> {
    if ms == [] then []
    else Payload(ms[..|ms| - 1]) + if ms[|ms| - 1].HttpChunk? then ms[|ms| - 1].chunk else []
  }

  function Bytes(body: seq<seq<byte>>): seq<byte> {
    if body == [] then [] else Bytes(body[..|body| - 1]) + body[|body| - 1]
  }

  predicate ChunksOnly(ms: seq<Msg>) {
    forall i :: 0 <= i < |ms| ==> ms[i].HttpChunk? && 1 <= |ms[i].chunk| <= 60000
  }

  lemma {:induction false} PayloadConcat(a: seq<Msg>, b: seq<Msg>)
    ensures Payload(a + b) == Payload(a) + Payload(b)
  {
    hide Payload;
    if b == [] {
      PayloadNone();
      assert a + b == a;
    } else {
      var init, last := b[..|b| - 1], b[|b| - 1];
      PayloadConcat(a, init);
      PayloadSnoc(a + init, last);
      PayloadSnoc(init, last);
      assert a + b == a + init + [last] && b == init + [last];
    }
  }

  lemma {:induction false} PayloadSnoc(ms: seq<Msg>, m: Msg)
    ensures Payload(ms + [m]) == Payload(ms) + if m.HttpChunk? then m.chunk else []
  {
    assert (ms + [m])[..|ms|] == ms;
  }

  lemma {:induction false} PayloadOne(m: Msg)
    requires m.HttpChunk?
    ensures Payload([m]) == m.chunk
  {
  }

  lemma {:induction false} SlicesShape(chunk: seq<byte>, from: nat)
    requires from <= |chunk|
    ensures ChunksOnly(Slices(chunk, from)) && Payload(Slices(chunk, from)) == chunk[from..]
    decreases |chunk| - from
  {
    hide Payload;
    if from < |chunk| {
      var end := if from + MAX_PAYLOAD < |chunk| then from + MAX_PAYLOAD else |chunk|;
      var head, rest := HttpChunk(chunk[from..end]), Slices(chunk, end);
      SlicesShape(chunk, end);
      PayloadOne(head);
      PayloadConcat([head], rest);
      assert chunk[from..] == chunk[from..end] + chunk[end..];
    } else {
      PayloadNone();
      assert chunk[from..] == [];
    }
  }

  lemma {:induction false} PayloadNone()
    ensures Payload([]) == []
  {
  }

  lemma {:induction false} MessagesConcat(w: World, a: seq<Event>, b: seq<Event>)
    ensures Messages(w, a + b) == Messages(w, a) + Messages(w, b)
  {
    hide MessagesOf;
    if b == [] {
      assert a + b == a;
    } else {
      MessagesConcat(w, a, b[..|b| - 1]);
      assert (a + b)[..|a + b| - 1] == a + b[..|b| - 1];
    }
  }

  lemma {:induction false} BodyMessages(w: World, body: seq<seq<byte>>)
    ensures ChunksOnly(Messages(w, ChunkEvents(body))) && Payload(Messages(w, ChunkEvents(body))) == Bytes(body)
  {
    if body != [] {
      var init, last := body[..|body| - 1], body[|body| - 1];
      var events := ChunkEvents(body);
      BodyMessages(w, init);
      SlicesShape(last, 0);
      assert events[..|events| - 1] == ChunkEvents(init);
      PayloadConcat(Messages(w, ChunkEvents(init)), Slices(last, 0));
    }
  }

  lemma {:induction false} OneMessage(w: World, e: Event)
    ensures Messages(w, [e]) == MessagesOf(w, e)
  {
  }

  lemma {:induction false} TooManyText()
    ensures "Proxy Error: " + TOO_MANY == "Proxy Error: Too many redirects"
  {
  }

  /** Every run reaches the peer as one start, then chunks, then one completion. After a final response
      each chunk has between 1 and 60000 bytes and together they are the bytes that were read, in order;
      otherwise the start is a 502 and the one chunk is the error text. */
  lemma {:induction false} StreamGrammar(w: World, outcome: Outcome)
    ensures var ms := Messages(w, EventsOf(outcome));
            && |ms| >= 2 && ms[0].HttpStart? && ms[|ms| - 1] == HttpComplete
            && match outcome
               case Final(r) =>
                 && ms[0] == HttpStart(r.status, PassedOn(r.headers))
                 && ChunksOnly(ms[1..|ms| - 1]) && Payload(ms[1..|ms| - 1]) == Bytes(r.body)
               case Failed(e) =>
                 ms[0].status == 502 && ms[1..|ms| - 1] == [HttpChunk(w.utf8("Proxy Error: " + e))]
               case TooMany =>
                 && ms[0].status == 502
                 && ms[1..|ms| - 1] == [HttpChunk(w.utf8("Proxy Error: Too many redirects"))]
  {
    hide PassedOn, Messages, ChunksOnly, Payload, ChunkEvents;
    match outcome
    case Failed(e) => OneMessage(w, Error(e));
    case TooMany =>
      OneMessage(w, Error(TOO_MANY));
      TooManyText();
    case Final(r) =>
      var start := ResponseStart(r.status, PassedOn(r.headers));
      MessagesConcat(w, [start] + ChunkEvents(r.body), [Complete]);
      MessagesConcat(w, [start], ChunkEvents(r.body));
      OneMessage(w, start);
      OneMessage(w, Complete);
      BodyMessages(w, r.body);
      var ms := Messages(w, EventsOf(outcome));
      assert ms == [HttpStart(r.status, PassedOn(r.headers))] + Messages(w, ChunkEvents(r.body)) + [HttpComplete];
      assert ms[1..|ms| - 1] == Messages(w, ChunkEvents(r.body));
  }

  /** A receiver that goes away gets the beginning of the stream. */
  lemma {:induction false} EarlyEnd(w: World, outcome: Outcome, taken: nat)
    ensures Messages(w, Firsts(EventsOf(outcome), taken)) <= Messages(w, EventsOf(outcome))
  {
    hide Messages, EventsOf;
    var events := EventsOf(outcome);
    if taken < |events| {
      MessagesConcat(w, events[..taken], events[taken..]);
      assert events == events[..taken] + events[taken..];
    }
  }

  /** A body that a read error cuts off gives the peer the same stream as a whole body of the same bytes. */
  lemma {:induction false} CutBodyLooksWhole(w: World, r: Response)
    ensures Messages(w, EventsOf(Final(r.(cutOff := true)))) == Messages(w, EventsOf(Final(r.(cutOff := false))))
  {
    hide Messages;
  }
}
