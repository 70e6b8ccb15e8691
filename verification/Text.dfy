/** The string operations of the modelled code: splitting and joining on a separator,
    trimming, and searching for a character. */
module Text {
  import opened Options

  /** Position of the first c in s, or |s| when there is none. */
  function IndexOf(s: string, c: char): (i: nat)
    ensures i <= |s|
    ensures forall k :: 0 <= k < i ==> s[k] != c
    ensures i < |s| ==> s[i] == c
  {
    if s == [] || s[0] == c then 0 else 1 + IndexOf(s[1..], c)
  }

  /** Position just after the last c in s, or 0 when there is none. */
  function AfterLast(s: string, c: char): (i: nat)
    ensures i <= |s|
    ensures forall k :: i <= k < |s| ==> s[k] != c
    ensures i > 0 ==> s[i - 1] == c
  {
    if s == [] || s[|s| - 1] == c then |s| else AfterLast(s[..|s| - 1], c)
  }

  function Split(s: string, c: char): (parts: seq<string>)
    ensures parts != []
    ensures forall p :: p in parts ==> c !in p
    decreases |s|
  {
    var i := IndexOf(s, c);
    if i == |s| then [s] else [s[..i]] + Split(s[i + 1..], c)
  }

  function Join(parts: seq<string>, c: char): string {
    if parts == [] then ""
    else if |parts| == 1 then parts[0]
    else parts[0] + [c] + Join(parts[1..], c)
  }

  lemma {:induction false} IndexOfConcat(a: string, c: char, b: string)
    requires c !in a
    ensures IndexOf(a + [c] + b, c) == |a|
  {
    var s := a + [c] + b;
    assert s[|a|] == c;
    assert forall k :: 0 <= k < |a| ==> s[k] == a[k] && a[k] in a;
  }

  /** One step of Split, when the first separator is known. */
  lemma {:induction false} SplitStep(a: string, c: char, b: string)
    requires c !in a
    ensures Split(a + [c] + b, c) == [a] + Split(b, c)
  {
    var s := a + [c] + b;
    IndexOfConcat(a, c, b);
    assert s[..|a|] == a;
    assert s[|a| + 1..] == b;
  }

  lemma {:induction false} SplitConcat(a: string, c: char, b: string)
    ensures Split(a + [c] + b, c) == Split(a, c) + Split(b, c)
    decreases |a|
  {
    var i := IndexOf(a, c);
    if i == |a| {
      assert c !in a;
      SplitStep(a, c, b);
    } else {
      var head, rest := a[..i], a[i + 1..];
      assert a == head + [c] + rest;
      assert a + [c] + b == head + [c] + (rest + [c] + b);
      SplitStep(head, c, rest + [c] + b);
      SplitConcat(rest, c, b);
    }
  }

  lemma {:induction false} SplitWhole(s: string, c: char)
    requires c !in s
    ensures Split(s, c) == [s]
  {
  }

  lemma {:induction false} SplitJoin(parts: seq<string>, c: char)
    requires parts != [] && forall p :: p in parts ==> c !in p
    ensures Split(Join(parts, c), c) == parts
  {
    SplitWhole(parts[0], c);
    if |parts| > 1 {
      SplitJoin(parts[1..], c);
      SplitConcat(parts[0], c, Join(parts[1..], c));
      assert parts == [parts[0]] + parts[1..];
    }
  }

  lemma {:induction false} JoinStep(head: string, rest: seq<string>, c: char)
    requires rest != []
    ensures Join([head] + rest, c) == head + [c] + Join(rest, c)
  {
    assert ([head] + rest)[1..] == rest;
  }

  lemma {:induction false} JoinSplit(s: string, c: char)
    ensures Join(Split(s, c), c) == s
    decreases |s|
  {
    var i := IndexOf(s, c);
    if i < |s| {
      var head, rest := s[..i], s[i + 1..];
      assert Split(s, c) == [head] + Split(rest, c);
      JoinStep(head, Split(rest, c), c);
      JoinSplit(rest, c);
      assert s == head + [c] + rest;
    }
  }

  datatype Cut = Cut(left: string, right: string)

  /** What stands around the first c, or None when there is no c. */
  function SplitOnce(s: string, c: char): Option<Cut> {
    var i := IndexOf(s, c);
    if i == |s| then None else Some(Cut(s[..i], s[i + 1..]))
  }

  lemma {:induction false} SplitOnceParts(s: string, c: char)
    ensures SplitOnce(s, c).None? <==> c !in s
    ensures SplitOnce(s, c).Some? ==>
              var cut := SplitOnce(s, c).value; s == cut.left + [c] + cut.right && c !in cut.left
  {
  }

  lemma {:induction false} SplitOnceConcat(a: string, c: char, b: string)
    requires c !in a
    ensures SplitOnce(a + [c] + b, c) == Some(Cut(a, b))
  {
    IndexOfConcat(a, c, b);
    var s := a + [c] + b;
    assert s[..|a|] == a && s[|a| + 1..] == b;
  }

  // ----- trimming ---------------------------------------------------------------------------

  function TrimStartChar(s: string, c: char): string {
    if s != [] && s[0] == c then TrimStartChar(s[1..], c) else s
  }

  function TrimEndChar(s: string, c: char): string {
    if s != [] && s[|s| - 1] == c then TrimEndChar(s[..|s| - 1], c) else s
  }

  /** The characters with the Unicode property White_Space. */
  predicate IsSpace(c: char) {
    var n := c as int;
    || 9 <= n <= 13 || n == 32 || n == 0x85 || n == 0xA0 || n == 0x1680
    || 0x2000 <= n <= 0x200A || n == 0x2028 || n == 0x2029 || n == 0x202F
    || n == 0x205F || n == 0x3000
  }

  function TrimStart(s: string): string {
    if s != [] && IsSpace(s[0]) then TrimStart(s[1..]) else s
  }

  function TrimEnd(s: string): string {
    if s != [] && IsSpace(s[|s| - 1]) then TrimEnd(s[..|s| - 1]) else s
  }

  function Trim(s: string): string {
    TrimEnd(TrimStart(s))
  }

  /** Neither end of s is white space. */
  predicate Trimmed(s: string) {
    s != [] ==> !IsSpace(s[0]) && !IsSpace(s[|s| - 1])
  }

  /** Exactly these characters count as white space. */
  lemma {:induction false} SpacesExactly(c: char)
    ensures IsSpace(c) <==>
            || c in "\t\n\U{b}\U{c}\r \U{85}\U{a0}\U{1680}\U{2028}\U{2029}\U{202f}\U{205f}\U{3000}"
            || '\U{2000}' <= c <= '\U{200a}'
  {
  }

  predicate AllSpace(s: string) {
    forall i :: 0 <= i < |s| ==> IsSpace(s[i])
  }

  lemma {:induction false} TrimStartTakes(s: string) returns (a: string)
    ensures AllSpace(a) && s == a + TrimStart(s) && (TrimStart(s) != "" ==> !IsSpace(TrimStart(s)[0]))
  {
    hide IsSpace;
    if s != "" && IsSpace(s[0]) {
      var rest := TrimStartTakes(s[1..]);
      a := [s[0]] + rest;
    } else {
      a := "";
    }
  }

  lemma {:induction false} TrimEndTakes(s: string) returns (b: string)
    ensures AllSpace(b) && s == TrimEnd(s) + b
    ensures TrimEnd(s) != "" ==> !IsSpace(TrimEnd(s)[|TrimEnd(s)| - 1]) && TrimEnd(s)[0] == s[0]
  {
    hide IsSpace;
    if s != "" && IsSpace(s[|s| - 1]) {
      var rest := TrimEndTakes(s[..|s| - 1]);
      b := rest + [s[|s| - 1]];
    } else {
      b := "";
    }
  }

  /** Trimming takes white space off both ends, all of it and nothing else. */
  lemma {:induction false} TrimTakes(s: string) returns (a: string, b: string)
    ensures AllSpace(a) && AllSpace(b) && s == a + Trim(s) + b && Trimmed(Trim(s))
  {
    hide IsSpace;
    a := TrimStartTakes(s);
    b := TrimEndTakes(TrimStart(s));
    assert s == a + (Trim(s) + b);
  }

  predicate AllOf(s: string, c: char) {
    forall i :: 0 <= i < |s| ==> s[i] == c
  }

  /** The same for one character. */
  lemma {:induction false} TrimCharTakes(s: string, c: char) returns (a: string, b: string)
    ensures AllOf(a, c) && s == a + TrimStartChar(s, c)
    ensures TrimStartChar(s, c) != "" ==> TrimStartChar(s, c)[0] != c
    ensures AllOf(b, c) && s == TrimEndChar(s, c) + b
    ensures TrimEndChar(s, c) != "" ==> TrimEndChar(s, c)[|TrimEndChar(s, c)| - 1] != c
  {
    a := TrimStartCharTakes(s, c);
    b := TrimEndCharTakes(s, c);
  }

  lemma {:induction false} TrimStartCharTakes(s: string, c: char) returns (a: string)
    ensures AllOf(a, c) && s == a + TrimStartChar(s, c)
    ensures TrimStartChar(s, c) != "" ==> TrimStartChar(s, c)[0] != c
  {
    if s != "" && s[0] == c {
      var rest := TrimStartCharTakes(s[1..], c);
      a := [c] + rest;
    } else {
      a := "";
    }
  }

  lemma {:induction false} TrimEndCharTakes(s: string, c: char) returns (b: string)
    ensures AllOf(b, c) && s == TrimEndChar(s, c) + b
    ensures TrimEndChar(s, c) != "" ==> TrimEndChar(s, c)[|TrimEndChar(s, c)| - 1] != c
  {
    if s != "" && s[|s| - 1] == c {
      var rest := TrimEndCharTakes(s[..|s| - 1], c);
      b := rest + [c];
    } else {
      b := "";
    }
  }

  predicate EndsWith(s: string, suffix: string) {
    |suffix| <= |s| && s[|s| - |suffix|..] == suffix
  }

  /** c replaced by d wherever it stands. */
  function Replace(s: string, c: char, d: char): (r: string)
    ensures |r| == |s|
    ensures forall i :: 0 <= i < |s| ==> r[i] == if s[i] == c then d else s[i]
  {
    seq(|s|, i requires 0 <= i < |s| => if s[i] == c then d else s[i])
  }

  lemma {:induction false} ReplaceNothing(s: string, c: char, d: char)
    requires c !in s
    ensures Replace(s, c, d) == s
  {
  }
}
