/** The table of digest challenges: issue, prune, counter comparison and one-shot use
    (web-davserver/src/auth.rs 260-305, 369-435). Times are nanoseconds of a clock that never runs
    backwards; each call reads it once. */
module NonceTable {
  import opened Options
  import opened Text

  const NONCE_TTL: nat := 300 * 1_000_000_000
  const U64_MAX: nat := 0xFFFF_FFFF_FFFF_FFFF

  // ----- the counter of a request --------------------------------------------------------------------

  function HexDigit(c: char): Option<nat> {
    if '0' <= c <= '9' then Some((c as int) - ('0' as int))
    else if 'a' <= c <= 'f' then Some((c as int) - ('a' as int) + 10)
    else if 'A' <= c <= 'F' then Some((c as int) - ('A' as int) + 10)
    else None
  }

  /** The value of a string of hexadecimal digits. */
  function HexValue(s: string): Option<nat> {
    if s == "" then Some(0)
    else
      match (HexValue(s[..|s| - 1]), HexDigit(s[|s| - 1]))
      case (Some(v), Some(d)) => Some(16 * v + d)
      case _ => None
  }

  /** u64::from_str_radix(s, 16): one leading plus sign is allowed, an empty digit string is not. */
  function ParseHex(s: string): Option<nat> {
    var digits := if |s| > 1 && s[0] == '+' then s[1..] else s;
    if digits == "" then None
    else match HexValue(digits) case Some(v) => (if v <= U64_MAX then Some(v) else None) case None => None
  }

  function HexChar(d: nat): char
    requires d < 16
  {
    if d < 10 then (d + ('0' as int)) as char else (d - 10 + ('a' as int)) as char
  }

  function HexText(n: nat): (s: string)
    ensures s != ""
  {
    if n < 16 then [HexChar(n)] else HexText(n / 16) + [HexChar(n % 16)]
  }

  lemma {:induction false} HexCharDigit(d: nat)
    requires d < 16
    ensures HexDigit(HexChar(d)) == Some(d) && HexChar(d) != '+'
  {
  }

  lemma {:induction false} HexValuePadded(zeros: string, n: nat)
    requires forall i :: 0 <= i < |zeros| ==> zeros[i] == '0'
    ensures HexValue(zeros + HexText(n)) == Some(n) && zeros + HexText(n) != ""
    ensures (zeros + HexText(n))[0] != '+'
  {
    hide HexDigit, HexChar;
    HexCharDigit(n % 16);
    var digit := HexChar(n % 16);
    if n >= 16 {
      HexValuePadded(zeros, n / 16);
      var head := zeros + HexText(n / 16);
      assert zeros + HexText(n) == head + [digit];
      HexValueSnoc(head, digit);
    } else {
      ZerosAreZero(zeros);
      HexValueSnoc(zeros, digit);
      assert HexText(n) == [digit];
    }
  }

  lemma {:induction false} HexValueSnoc(s: string, c: char)
    requires HexValue(s).Some? && HexDigit(c).Some?
    ensures HexValue(s + [c]) == Some(16 * HexValue(s).value + HexDigit(c).value)
  {
    assert (s + [c])[..|s|] == s;
  }

  lemma {:induction false} ZerosAreZero(zeros: string)
    requires forall i :: 0 <= i < |zeros| ==> zeros[i] == '0'
    ensures HexValue(zeros) == Some(0)
  {
    if zeros != "" {
      ZerosAreZero(zeros[..|zeros| - 1]);
    }
  }

  /** A counter printed in hexadecimal, with any number of leading zeros, is read back, unless it does
      not fit 64 bits. */
  lemma {:induction false} PrintedCounterParses(zeros: string, n: nat)
    requires forall i :: 0 <= i < |zeros| ==> zeros[i] == '0'
    ensures ParseHex(zeros + HexText(n)) == if n <= 0xFFFF_FFFF_FFFF_FFFF then Some(n) else None
  {
    HexValuePadded(zeros, n);
  }

  predicate AllHex(s: string) {
    forall i :: 0 <= i < |s| ==> HexDigit(s[i]).Some?
  }

  lemma {:induction false} HexValueExists(s: string)
    ensures HexValue(s).Some? <==> AllHex(s)
  {
    hide HexDigit;
    if s != "" {
      HexValueExists(s[..|s| - 1]);
      assert forall i :: 0 <= i < |s| - 1 ==> s[..|s| - 1][i] == s[i];
    }
  }

  /** The digits of a counter text, after one leading plus sign if there is one. */
  function Digits(s: string): string {
    if s != "" && s[0] == '+' then s[1..] else s
  }

  /** Exactly these texts are taken for a counter: an optional plus sign, at least one hexadecimal digit and
      nothing else, with a value of 64 bits. */
  lemma {:induction false} CounterSyntax(s: string)
    ensures ParseHex(s).Some? <==>
            && Digits(s) != "" && AllHex(Digits(s)) && HexValue(Digits(s)).Some?
            && HexValue(Digits(s)).value <= 0xFFFF_FFFF_FFFF_FFFF
    ensures ParseHex(s).Some? ==> ParseHex(s) == HexValue(Digits(s))
  {
    hide HexValue;
    HexValueExists(Digits(s));
    if s == "+" {
      HexValueExists("+");
      assert s[0] == '+' && HexDigit('+').None?;
    }
  }

  const LOWER := "0123456789abcdef"
  const UPPER := "0123456789ABCDEF"

  lemma {:induction false} LowerAt(d: nat)
    requires d < 16
    ensures LOWER[d] as int == if d < 10 then d + 48 else d + 87
  {
  }

  lemma {:induction false} UpperAt(d: nat)
    requires d < 16
    ensures UPPER[d] as int == if d < 10 then d + 48 else d + 55
  {
  }

  /** A character is the digit d if and only if it stands at d in one of these two lists. */
  lemma {:induction false} HexDigitExactly(c: char, d: nat)
    ensures HexDigit(c) == Some(d) <==> d < 16 && (LOWER[d] == c || UPPER[d] == c)
  {
    hide LOWER, UPPER;
    if d < 16 {
      LowerAt(d);
      UpperAt(d);
    }
  }

  /** The form the standard gives the counter: eight hexadecimal digits. */
  predicate StandardCounter(s: string) {
    |s| == 8 && AllHex(s)
  }

  /** Every counter of the standard's form is taken, and a text that is taken has that form if and only if it
      has eight characters and no plus sign. */
  lemma {:induction false} StandardExactly(s: string)
    ensures StandardCounter(s) ==> ParseHex(s).Some?
    ensures ParseHex(s).Some? ==> (StandardCounter(s) <==> |s| == 8 && s[0] != '+')
  {
    hide HexValue;
    CounterSyntax(s);
    HexValueExists(s);
    if StandardCounter(s) {
      HexBound(s);
      assert HexDigit(s[0]).Some?;
    }
  }

  function Power16(n: nat): nat {
    if n == 0 then 1 else 16 * Power16(n - 1)
  }

  lemma {:induction false} HexBound(s: string)
    requires AllHex(s)
    ensures HexValue(s).Some? && HexValue(s).value < Power16(|s|)
    ensures |s| == 8 ==> HexValue(s).Some? && HexValue(s).value <= U64_MAX
  {
    if s != "" {
      HexBound(s[..|s| - 1]);
      assert HexDigit(s[|s| - 1]).value < 16;
    }
    if |s| == 8 {
      EightDigits();
    }
  }

  lemma {:induction false} EightDigits()
    ensures Power16(8) == 0x1_0000_0000
  {
    assert Power16(2) == 256 && Power16(4) == 65536 && Power16(6) == 0x100_0000;
  }

  /** Two texts of the same counter that do not have that form and are taken all the same. */
  lemma {:induction false} OtherForms()
    ensures ParseHex("1") == Some(1) && !StandardCounter("1")
    ensures ParseHex("+00000001") == Some(1) && !StandardCounter("+00000001")
  {
    PrintedCounterParses("", 1);
    PrintedCounterParses("0000000", 1);
    assert HexText(1) == "1" && "" + "1" == "1";
    assert "0000000" + "1" == "00000001" && "+00000001"[1..] == "00000001";
    assert HexValue("00000001") == Some(1);
  }

  /** A request carries no counter, a counter, or something that is not one. */
  datatype Use = NoCounter | Counter(n: nat) | Malformed

  function UseOf(nc: Option<string>): Use {
    match nc
    case None => NoCounter
    case Some(s) => match ParseHex(s) case Some(v) => Counter(v) case None => Malformed
  }

  /** What a counter text counts as: nothing without one, the number it spells, or malformed. */
  lemma {:induction false} UseExactly(nc: Option<string>)
    ensures UseOf(nc) == NoCounter <==> nc == None
    ensures forall n: nat :: UseOf(nc) == Counter(n) <==> nc.Some? && ParseHex(nc.value) == Some(n)
    ensures UseOf(nc) == Malformed <==> nc.Some? && ParseHex(nc.value) == None
  {
  }

  // ----- the pruned table -------------------------------------------------------------------------------

  datatype NonceState = NonceState(issued: nat, highest: nat)

  type Table = map<string, NonceState>

  function Elapsed(now: nat, since: nat): nat {
    if now < since then 0 else now - since
  }

  function Retain(m: Table, now: nat): Table {
    map n | n in m && Elapsed(now, m[n].issued) < NONCE_TTL :: m[n]
  }

  function Issue(m: Table, now: nat, nonce: string): Table {
    Retain(m, now)[nonce := NonceState(now, 0)]
  }

  function Decides(m: Table, now: nat, nonce: string, use: Use): bool {
    && nonce in m && Elapsed(now, m[nonce].issued) < NONCE_TTL
    && match use case Malformed => false case NoCounter => true case Counter(c) => c > m[nonce].highest
  }

  function Accept(m: Table, now: nat, nonce: string, use: Use): Table {
    var kept := Retain(m, now);
    if !Decides(m, now, nonce, use) then kept
    else if use.NoCounter? then kept - {nonce}
    else kept[nonce := kept[nonce].(highest := use.n)]
  }

  class Nonces {
    var table: Table

    constructor ()
      ensures table == map[]
    {
      table := map[];
    }

    method IssueNonce(now: nat, nonce: string)
      modifies this
      ensures table == Issue(old(table), now, nonce)
    {
      table := Retain(table, now);
      table := table[nonce := NonceState(now, 0)];
    }

    method AcceptNonce(now: nat, nonce: string, nc: Option<string>) returns (ok: bool)
      modifies this
      ensures ok == Decides(old(table), now, nonce, UseOf(nc))
      ensures table == Accept(old(table), now, nonce, UseOf(nc))
      ensures ok <==> && nonce in old(table) && now < old(table)[nonce].issued + 300_000_000_000
                      && (nc.Some? ==> ParseHex(nc.value).Some? && ParseHex(nc.value).value > old(table)[nonce].highest)
    {
      table := Retain(table, now);
      match nc
      case Some(text) =>
        var counter := ParseHex(text);
        if counter.None? {
          return false;
        }
        if nonce in table && counter.value > table[nonce].highest {
          table := table[nonce := table[nonce].(highest := counter.value)];
          return true;
        }
        return false;
      case None =>
        ok := nonce in table;
        table := table - {nonce};
    }
  }

  // ----- the history that is never pruned ------------------------------------------------------------------

  datatype Call = IssueCall(now: nat, nonce: string) | AcceptCall(now: nat, nonce: string, use: Use)

  datatype Event =
    | Issued(time: nat, nonce: string)
    | Used(time: nat, nonce: string, use: Use, accepted: bool)

  /** When the nonce was issued. */
  function IssueTime(h: seq<Event>, nonce: string): Option<nat> {
    if h == [] then None
    else
      var e := h[|h| - 1];
      if e.Issued? && e.nonce == nonce then Some(e.time) else IssueTime(h[..|h| - 1], nonce)
  }

  /** The nonce was accepted without a counter. */
  function Consumed(h: seq<Event>, nonce: string): bool {
    h != [] && (h[|h| - 1] == Used(h[|h| - 1].time, nonce, NoCounter, true) || Consumed(h[..|h| - 1], nonce))
  }

  /** The largest counter accepted for the nonce, 0 when there is none. */
  function Highest(h: seq<Event>, nonce: string): nat {
    if h == [] then 0
    else
      var e, before := h[|h| - 1], Highest(h[..|h| - 1], nonce);
      if e.Used? && e.accepted && e.nonce == nonce && e.use.Counter? && e.use.n > before then e.use.n
      else before
  }

  /** The rule stated on the whole history: issued less than 300 s ago, not used up, and a counter
      larger than every counter accepted so far. */
  function ShouldAccept(h: seq<Event>, now: nat, nonce: string, use: Use): bool {
    && IssueTime(h, nonce).Some? && Elapsed(now, IssueTime(h, nonce).value) < NONCE_TTL
    && !Consumed(h, nonce)
    && match use case Malformed => false case NoCounter => true case Counter(c) => c > Highest(h, nonce)
  }

  datatype World = World(table: Table, history: seq<Event>)

  /** The log entry of a call. */
  function EventOf(w: World, c: Call): Event {
    match c
    case IssueCall(now, nonce) => Issued(now, nonce)
    case AcceptCall(now, nonce, use) => Used(now, nonce, use, Decides(w.table, now, nonce, use))
  }

  /** One call on the pruned table, logged with the table's decision. */
  function Do(w: World, c: Call): World {
    var table := match c
                 case IssueCall(now, nonce) => Issue(w.table, now, nonce)
                 case AcceptCall(now, nonce, use) => Accept(w.table, now, nonce, use);
    World(table, w.history + [EventOf(w, c)])
  }

  function RunCalls(cs: seq<Call>): (w: World)
    ensures |w.history| == |cs|
  {
    if cs == [] then World(map[], []) else Do(RunCalls(cs[..|cs| - 1]), cs[|cs| - 1])
  }

  /** The clock never runs backwards and no nonce is issued twice. */
  predicate Legal(cs: seq<Call>) {
    && (forall i, j :: 0 <= i < j < |cs| ==> cs[i].now <= cs[j].now)
    && (forall i, j :: 0 <= i < j < |cs| && cs[i].IssueCall? && cs[j].IssueCall? ==> cs[i].nonce != cs[j].nonce)
  }

  /** What the table still knows of the history at a time. */
  ghost predicate Tracks(w: World, now: nat) {
    forall n ::
      if n in w.table then
        && IssueTime(w.history, n) == Some(w.table[n].issued)
        && !Consumed(w.history, n)
        && w.table[n].highest == Highest(w.history, n)
      else
        IssueTime(w.history, n).Some? ==>
          Consumed(w.history, n) || Elapsed(now, IssueTime(w.history, n).value) >= NONCE_TTL
  }

  lemma {:induction false} DoTracks(w: World, c: Call, now: nat)
    requires Tracks(w, now) && now <= c.now
    requires c.IssueCall? ==> IssueTime(w.history, c.nonce) == None && !Consumed(w.history, c.nonce)
                              && Highest(w.history, c.nonce) == 0
    ensures Tracks(Do(w, c), c.now)
    ensures c.AcceptCall? ==>
              Decides(w.table, c.now, c.nonce, c.use) == ShouldAccept(w.history, c.now, c.nonce, c.use)
  {
    var t := Do(w, c);
    assert t.history[..|t.history| - 1] == w.history;
  }

  /** A nonce that was never issued was never accepted either. */
  lemma {:induction false} UnknownNonce(cs: seq<Call>, nonce: string)
    requires Legal(cs) && forall i :: 0 <= i < |cs| && cs[i].IssueCall? ==> cs[i].nonce != nonce
    ensures var h := RunCalls(cs).history;
            IssueTime(h, nonce) == None && !Consumed(h, nonce) && Highest(h, nonce) == 0
    ensures nonce !in RunCalls(cs).table
  {
    hide Issue, Accept, Decides, Legal;
    if cs != [] {
      var init, c := cs[..|cs| - 1], cs[|cs| - 1];
      assert cs == init + [c];
      LegalPrefix(init, c);
      UnknownNonce(init, nonce);
      DoUnknown(RunCalls(init), c, nonce);
    }
  }

  lemma {:induction false} DoUnknown(w: World, c: Call, nonce: string)
    requires IssueTime(w.history, nonce) == None && !Consumed(w.history, nonce) && Highest(w.history, nonce) == 0
    requires nonce !in w.table && (c.IssueCall? ==> c.nonce != nonce)
    ensures var t := Do(w, c);
            && IssueTime(t.history, nonce) == None && !Consumed(t.history, nonce) && Highest(t.history, nonce) == 0
            && nonce !in t.table
  {
    var t := Do(w, c);
    assert t.history[..|t.history| - 1] == w.history;
  }

  function LastTime(cs: seq<Call>): nat {
    if cs == [] then 0 else cs[|cs| - 1].now
  }

  lemma {:induction false} RunTracks(cs: seq<Call>)
    requires Legal(cs)
    ensures Tracks(RunCalls(cs), LastTime(cs))
  {
    if cs != [] {
      var init, c := cs[..|cs| - 1], cs[|cs| - 1];
      RunTracks(init);
      if c.IssueCall? {
        UnknownNonce(init, c.nonce);
      }
      DoTracks(RunCalls(init), c, LastTime(init));
    }
  }

  lemma {:induction false} HistoryPrefix(cs: seq<Call>, k: nat)
    requires k <= |cs|
    ensures RunCalls(cs[..k]).history == RunCalls(cs).history[..k]
  {
    if k == |cs| {
      assert cs[..k] == cs;
    }
    if cs != [] {
      var init := cs[..|cs| - 1];
      if k < |cs| {
        HistoryPrefix(init, k);
        assert init[..k] == cs[..k];
      } else {
        HistoryPrefix(init, k - 1);
      }
    }
  }

  /** Pruning never shows: in every run, each decision of the pruned table is the decision of the rule
      on the complete history up to that call. */
  lemma {:induction false} PruningIsInvisible(cs: seq<Call>, k: nat)
    requires Legal(cs) && k < |cs|
    ensures var h := RunCalls(cs).history;
            match cs[k]
            case IssueCall(now, nonce) => h[k] == Issued(now, nonce)
            case AcceptCall(now, nonce, use) =>
              h[k] == Used(now, nonce, use, ShouldAccept(h[..k], now, nonce, use))
  {
    var init := cs[..k];
    HistoryPrefix(cs, k);
    HistoryPrefix(cs, k + 1);
    assert cs[..k + 1][..k] == init;
    RunTracks(init);
    if cs[k].IssueCall? {
      UnknownNonce(init, cs[k].nonce);
    }
    DoTracks(RunCalls(init), cs[k], LastTime(init));
    assert RunCalls(cs).history[k] == RunCalls(cs).history[..k + 1][k];
  }

  // ----- whole-run properties ----------------------------------------------------------------------------

  lemma {:induction false} HighestBounds(h: seq<Event>, j: nat, nonce: string)
    requires j < |h| && h[j].Used? && h[j].accepted && h[j].nonce == nonce && h[j].use.Counter?
    ensures h[j].use.n <= Highest(h, nonce)
  {
    if j < |h| - 1 {
      HighestBounds(h[..|h| - 1], j, nonce);
    }
  }

  lemma {:induction false} ConsumedBy(h: seq<Event>, j: nat, nonce: string)
    requires j < |h| && h[j].Used? && h[j].accepted && h[j].nonce == nonce && h[j].use.NoCounter?
    ensures Consumed(h, nonce)
  {
    if j < |h| - 1 {
      ConsumedBy(h[..|h| - 1], j, nonce);
    }
  }

  /** Two acceptances of one nonce: the earlier one carries a counter, and if the later one does too,
      it is larger. So no (nonce, counter) pair is accepted twice, and an acceptance without a counter
      is the nonce's last. */
  lemma {:induction false} AcceptedCountersIncrease(cs: seq<Call>, j: nat, k: nat)
    requires Legal(cs) && j < k < |cs|
    requires var h := RunCalls(cs).history;
             h[j].Used? && h[j].accepted && h[k].Used? && h[k].accepted && h[j].nonce == h[k].nonce
    ensures var h := RunCalls(cs).history;
            h[j].use.Counter? && h[j].use.n > 0 && (h[k].use.Counter? ==> h[j].use.n < h[k].use.n)
  {
    var h := RunCalls(cs).history;
    PruningIsInvisible(cs, j);
    PruningIsInvisible(cs, k);
    if h[j].use.Counter? {
      HighestBounds(h[..k], j, h[j].nonce);
    } else if h[j].use.NoCounter? {
      ConsumedBy(h[..k], j, h[j].nonce);
    }
  }

  lemma {:induction false} IssueTimeWitness(h: seq<Event>, nonce: string) returns (i: nat)
    requires IssueTime(h, nonce).Some?
    ensures i < |h| && h[i] == Issued(IssueTime(h, nonce).value, nonce)
  {
    var e := h[|h| - 1];
    if e.Issued? && e.nonce == nonce {
      i := |h| - 1;
    } else {
      i := IssueTimeWitness(h[..|h| - 1], nonce);
    }
  }

  /** Every acceptance follows the issue of its nonce by less than 300 s. */
  lemma {:induction false} AcceptedWhileFresh(cs: seq<Call>, k: nat)
    requires Legal(cs) && k < |cs|
    requires RunCalls(cs).history[k].Used? && RunCalls(cs).history[k].accepted
    ensures var h := RunCalls(cs).history;
            exists i :: 0 <= i < k && h[i].Issued? && h[i].nonce == h[k].nonce
                        && h[i].time <= h[k].time < h[i].time + 300_000_000_000
  {
    var h := RunCalls(cs).history;
    PruningIsInvisible(cs, k);
    var i := IssueTimeWitness(h[..k], h[k].nonce);
    PruningIsInvisible(cs, i);
    assert h[i] == h[..k][i];
  }

  /** Calls on other nonces are irrelevant: the rule reads only the nonce's own events. */
  function Own(h: seq<Event>, nonce: string): seq<Event> {
    if h == [] then []
    else Own(h[..|h| - 1], nonce) + if h[|h| - 1].nonce == nonce then [h[|h| - 1]] else []
  }

  lemma {:induction false} OnlyOwnEventsCount(h: seq<Event>, nonce: string)
    ensures IssueTime(h, nonce) == IssueTime(Own(h, nonce), nonce)
    ensures Consumed(h, nonce) == Consumed(Own(h, nonce), nonce)
    ensures Highest(h, nonce) == Highest(Own(h, nonce), nonce)
  {
    if h != [] {
      var init := h[..|h| - 1];
      OnlyOwnEventsCount(init, nonce);
      var own := Own(init, nonce);
      if h[|h| - 1].nonce == nonce {
        assert (own + [h[|h| - 1]])[..|own|] == own;
      } else {
        assert own + [] == own;
      }
    }
  }

  /** Two runs that agree on a nonce's own events, whatever else happened in them, decide its next use
      alike. */
  lemma {:induction false} OtherNoncesDoNotMatter(cs: seq<Call>, ds: seq<Call>, now: nat, nonce: string, use: Use)
    requires Legal(cs + [AcceptCall(now, nonce, use)]) && Legal(ds + [AcceptCall(now, nonce, use)])
    requires Own(RunCalls(cs).history, nonce) == Own(RunCalls(ds).history, nonce)
    ensures Decides(RunCalls(cs).table, now, nonce, use) == Decides(RunCalls(ds).table, now, nonce, use)
  {
    var c := AcceptCall(now, nonce, use);
    forall es | es == cs || es == ds
      ensures Decides(RunCalls(es).table, now, nonce, use) == ShouldAccept(RunCalls(es).history, now, nonce, use)
    {
      LegalPrefix(es, c);
      RunTracks(es);
      DoTracks(RunCalls(es), c, LastTime(es));
    }
    OnlyOwnEventsCount(RunCalls(cs).history, nonce);
    OnlyOwnEventsCount(RunCalls(ds).history, nonce);
  }

  /** A request with a wrong response only issues a challenge. Leaving it out of a run changes no later
      decision on any other nonce. */
  lemma {:induction false} WrongResponseChangesNothing(a: seq<Call>, issue: Call, b: seq<Call>, now: nat,
                                                       nonce: string, use: Use)
    requires issue.IssueCall? && issue.nonce != nonce
    requires Legal(a + [issue] + b + [AcceptCall(now, nonce, use)])
    ensures Decides(RunCalls(a + [issue] + b).table, now, nonce, use)
         == Decides(RunCalls(a + b).table, now, nonce, use)
    ensures Own(RunCalls(a + [issue] + b).history, nonce) == Own(RunCalls(a + b).history, nonce)
    decreases |b|
  {
    hide RunCalls, Own, Legal, Decides;
    var long, short, c := a + [issue] + b, a + b, AcceptCall(now, nonce, use);
    assert long + [c] == a + [issue] + (b + [c]) && short + [c] == a + (b + [c]);
    LegalWithout(a, issue, b + [c]);
    if b == [] {
      OwnSnoc(a, issue, nonce);
      assert long == a + [issue] && short == a;
    } else {
      var init, last := b[..|b| - 1], b[|b| - 1];
      assert long == a + [issue] + init + [last] && short == a + init + [last];
      OwnSnoc(a + [issue] + init, last, nonce);
      OwnSnoc(a + init, last, nonce);
      if last.AcceptCall? && last.nonce == nonce {
        LegalPrefix(long, c);
        WrongResponseChangesNothing(a, issue, init, last.now, nonce, last.use);
      } else {
        assert a + [issue] + init + [last] + [c] == a + [issue] + init + [last, c];
        LegalSkip(a + [issue] + init, last, c);
        WrongResponseChangesNothing(a, issue, init, now, nonce, use);
      }
    }
    OtherNoncesDoNotMatter(long, short, now, nonce, use);
  }

  lemma {:induction false} OwnSnoc(cs: seq<Call>, c: Call, nonce: string)
    ensures Own(RunCalls(cs + [c]).history, nonce) ==
            Own(RunCalls(cs).history, nonce) + if c.nonce == nonce then [EventOf(RunCalls(cs), c)] else []
  {
  }

  lemma {:induction false} LegalWithout(a: seq<Call>, c: Call, b: seq<Call>)
    requires Legal(a + [c] + b)
    ensures Legal(a + b)
  {
    var long, short := a + [c] + b, a + b;
    forall i | 0 <= i < |short| ensures short[i] == long[if i < |a| then i else i + 1] {
    }
  }

  lemma {:induction false} LegalSkip(a: seq<Call>, c: Call, d: Call)
    requires Legal(a + [c, d])
    ensures Legal(a + [d])
  {
    assert a + [c, d] == a + [c] + [d];
    LegalWithout(a, c, [d]);
  }

  lemma {:induction false} LegalPrefix(cs: seq<Call>, c: Call)
    requires Legal(cs + [c])
    ensures Legal(cs) && LastTime(cs) <= c.now
  {
    var all := cs + [c];
    assert forall i :: 0 <= i < |cs| ==> all[i] == cs[i];
    assert all[|cs|] == c;
  }

  /** The counter of the m-th use in a sequence of own events that starts with the issue. */
  predicate CountsUp(own: seq<Event>) {
    && own != [] && own[0].Issued?
    && forall m :: 1 <= m < |own| ==> own[m].Used? && own[m].use == Counter(m)
  }

  lemma {:induction false} CountsUpState(own: seq<Event>, nonce: string)
    requires CountsUp(own) && forall e :: e in own ==> e.nonce == nonce
    ensures IssueTime(own, nonce) == Some(own[0].time) && !Consumed(own, nonce)
    ensures Highest(own, nonce) < |own|
  {
    if |own| > 1 {
      CountsUpState(own[..|own| - 1], nonce);
    }
  }

  lemma {:induction false} OwnNonces(h: seq<Event>, nonce: string)
    ensures forall e :: e in Own(h, nonce) ==> e.nonce == nonce
  {
    if h != [] {
      OwnNonces(h[..|h| - 1], nonce);
    }
  }

  /** A client that uses its challenge with 1, 2, 3, ... within 300 s is accepted every time, whatever
      happens on other nonces. */
  lemma {:induction false} CountingClientIsAccepted(cs: seq<Call>, k: nat, nonce: string)
    requires Legal(cs) && k < |cs|
    requires var h := RunCalls(cs).history;
             && CountsUp(Own(h[..k + 1], nonce))
             && h[k].Used? && h[k].nonce == nonce
             && h[k].time < Own(h[..k + 1], nonce)[0].time + 300_000_000_000
    ensures RunCalls(cs).history[k].accepted
  {
    var h := RunCalls(cs).history;
    PruningIsInvisible(cs, k);
    var own, all := Own(h[..k], nonce), Own(h[..k + 1], nonce);
    assert h[..k + 1][..k] == h[..k];
    assert all == own + [h[k]];
    assert CountsUp(own) by {
      assert own[0] == all[0];
      assert forall m :: 1 <= m < |own| ==> own[m] == all[m];
    }
    assert h[k] == all[|own|];
    OwnNonces(h[..k], nonce);
    CountsUpState(own, nonce);
    OnlyOwnEventsCount(h[..k], nonce);
  }

  // ----- the request handler -------------------------------------------------------------------------------

  datatype DigestAuth = DigestAuth(username: string, realm: string, nonce: string, uri: string,
                                   response: string, qop: Option<string>, nc: Option<string>,
                                   cnonce: Option<string>)

  datatype Credentials = Credentials(username: string, password: string)

  /** The response a client with these credentials computes; md5 yields the hexadecimal digest. */
  function Expected(md5: string -> string, cred: Credentials, verb: string, auth: DigestAuth): string {
    var ha1 := md5(cred.username + ":" + auth.realm + ":" + cred.password);
    var ha2 := md5(verb + ":" + auth.uri);
    if auth.qop.Some? && auth.nc.Some? && auth.cnonce.Some? then
      md5(ha1 + ":" + auth.nonce + ":" + auth.nc.value + ":" + auth.cnonce.value + ":" + auth.qop.value + ":" + ha2)
    else md5(ha1 + ":" + auth.nonce + ":" + ha2)
  }

  predicate RightResponse(md5: string -> string, cred: Option<Credentials>, verb: string, auth: DigestAuth) {
    && cred.Some? && auth.username == cred.value.username
    && auth.response == Expected(md5, cred.value, verb, auth)
  }

  /** The texts that are hashed together, for a response with and without qop, nc and cnonce. */
  function HashedParts(md5: string -> string, cred: Credentials, verb: string, auth: DigestAuth): seq<string> {
    [md5(Join([cred.username, auth.realm, cred.password], ':')), auth.nonce]
    + (match (auth.nc, auth.cnonce, auth.qop)
       case (Some(nc), Some(cnonce), Some(qop)) => [nc, cnonce, qop]
       case _ => [])
    + [md5(Join([verb, auth.uri], ':'))]
  }

  lemma {:induction false} JoinTwo(a: string, b: string)
    ensures Join([a, b], ':') == a + ":" + b
  {
    assert [a, b][1..] == [b];
  }

  lemma {:induction false} JoinThree(a: string, b: string, c: string)
    ensures Join([a, b, c], ':') == a + ":" + b + ":" + c
  {
    assert [a, b, c][1..] == [b, c];
    JoinTwo(b, c);
    assert a + ":" + (b + ":" + c) == a + ":" + b + ":" + c;
  }

  lemma {:induction false} JoinSix(a: string, b: string, c: string, d: string, e: string, f: string)
    ensures Join([a, b, c, d, e, f], ':') == a + ":" + b + ":" + c + ":" + d + ":" + e + ":" + f
  {
    assert [a, b, c, d, e, f][1..] == [b, c, d, e, f] && [b, c, d, e, f][1..] == [c, d, e, f];
    assert [c, d, e, f][1..] == [d, e, f];
    JoinThree(d, e, f);
    assert Join([b, c, d, e, f], ':') == b + ":" + (c + ":" + (d + ":" + e + ":" + f));
    assert a + ":" + (b + ":" + (c + ":" + (d + ":" + e + ":" + f)))
        == a + ":" + b + ":" + c + ":" + d + ":" + e + ":" + f;
  }

  /** A response is right if and only if the user is the configured one and the response is the hash of these
      texts, joined by colons. */
  lemma {:induction false} RightExactly(md5: string -> string, cred: Option<Credentials>, verb: string,
                                        auth: DigestAuth)
    ensures RightResponse(md5, cred, verb, auth) <==>
            && cred.Some? && auth.username == cred.value.username
            && auth.response == md5(Join(HashedParts(md5, cred.value, verb, auth), ':'))
  {
    if cred.Some? {
      var Credentials(user, password) := cred.value;
      JoinThree(user, auth.realm, password);
      JoinTwo(verb, auth.uri);
      var a1, a2 := md5(user + ":" + auth.realm + ":" + password), md5(verb + ":" + auth.uri);
      JoinThree(a1, auth.nonce, a2);
      if auth.qop.Some? && auth.nc.Some? && auth.cnonce.Some? {
        JoinSix(a1, auth.nonce, auth.nc.value, auth.cnonce.value, auth.qop.value, a2);
        assert HashedParts(md5, cred.value, verb, auth)
            == [a1, auth.nonce, auth.nc.value, auth.cnonce.value, auth.qop.value, a2];
      } else {
        assert HashedParts(md5, cred.value, verb, auth) == [a1, auth.nonce, a2];
      }
    }
  }

  /** A hash without collisions whose values hold no colon. */
  ghost predicate Collisionless(md5: string -> string) {
    && (forall x, y :: md5(x) == md5(y) ==> x == y)
    && (forall x :: ':' !in md5(x))
  }

  /** The fields between colons hold none themselves; realm, uri and the credentials may. */
  predicate ColonFree(verb: string, auth: DigestAuth) {
    && ':' !in verb && ':' !in auth.nonce
    && (auth.nc.Some? ==> ':' !in auth.nc.value)
    && (auth.cnonce.Some? ==> ':' !in auth.cnonce.value)
    && (auth.qop.Some? ==> ':' !in auth.qop.value)
  }

  lemma {:induction false} SameRealm(user: string, realm: string, other: string, password: string)
    requires Join([user, realm, password], ':') == Join([user, other, password], ':')
    ensures realm == other
  {
    JoinThree(user, realm, password);
    JoinThree(user, other, password);
    var a, b := user + ":" + realm + ":" + password, user + ":" + other + ":" + password;
    assert a[|user| + 1..|a| - |password| - 1] == realm && b[|user| + 1..|b| - |password| - 1] == other;
  }

  lemma {:induction false} SameRequestLine(verb: string, uri: string, other: string, address: string)
    requires ':' !in verb && ':' !in other && Join([verb, uri], ':') == Join([other, address], ':')
    ensures verb == other && uri == address
  {
    JoinTwo(verb, uri);
    JoinTwo(other, address);
    SplitOnceConcat(verb, ':', uri);
    SplitOnceConcat(other, ':', address);
  }

  /** A response binds its request: under a hash without collisions, one response that is right for two
      requests forces the same method, uri, realm and nonce, and the same nc, cnonce and qop if all three are
      there, which they are in both or in neither. */
  lemma {:induction false} ResponseBinds(md5: string -> string, cred: Option<Credentials>, verb: string,
                                         auth: DigestAuth, other: string, claim: DigestAuth)
    requires ColonFree(verb, auth) && ColonFree(other, claim) && auth.response == claim.response
    ensures Collisionless(md5) && RightResponse(md5, cred, verb, auth) && RightResponse(md5, cred, other, claim) ==>
              var full := auth.nc.Some? && auth.cnonce.Some? && auth.qop.Some?;
              && verb == other && auth.uri == claim.uri && auth.realm == claim.realm && auth.nonce == claim.nonce
              && (full <==> claim.nc.Some? && claim.cnonce.Some? && claim.qop.Some?)
              && (full ==> auth.nc == claim.nc && auth.cnonce == claim.cnonce && auth.qop == claim.qop)
  {
    hide RightResponse, Join;
    if Collisionless(md5) && RightResponse(md5, cred, verb, auth) && RightResponse(md5, cred, other, claim) {
      RightExactly(md5, cred, verb, auth);
      RightExactly(md5, cred, other, claim);
      var p, q := HashedParts(md5, cred.value, verb, auth), HashedParts(md5, cred.value, other, claim);
      SplitJoin(p, ':');
      SplitJoin(q, ':');
      assert p == q;
      SamePartsBind(md5, cred.value, verb, auth, other, claim);
    }
  }

  lemma {:induction false} SamePartsBind(md5: string -> string, cred: Credentials, verb: string, auth: DigestAuth,
                                         other: string, claim: DigestAuth)
    requires Collisionless(md5) && ColonFree(verb, auth) && ColonFree(other, claim)
    requires HashedParts(md5, cred, verb, auth) == HashedParts(md5, cred, other, claim)
    ensures var full := auth.nc.Some? && auth.cnonce.Some? && auth.qop.Some?;
            && verb == other && auth.uri == claim.uri && auth.realm == claim.realm && auth.nonce == claim.nonce
            && (full <==> claim.nc.Some? && claim.cnonce.Some? && claim.qop.Some?)
            && (full ==> auth.nc == claim.nc && auth.cnonce == claim.cnonce && auth.qop == claim.qop)
  {
    hide Join;
    var p, q := HashedParts(md5, cred, verb, auth), HashedParts(md5, cred, other, claim);
    assert p[0] == q[0] && p[1] == q[1] && p[|p| - 1] == q[|q| - 1] && |p| == |q|;
    assert |p| == 6 ==> p[2] == q[2] && p[3] == q[3] && p[4] == q[4];
    SameRealm(cred.username, auth.realm, claim.realm, cred.password);
    SameRequestLine(verb, auth.uri, other, claim.uri);
  }

  method ValidateDigest(md5: string -> string, nonces: Nonces, cred: Option<Credentials>, verb: string,
                        auth: DigestAuth, now: nat) returns (ok: bool)
    modifies nonces
    ensures !RightResponse(md5, cred, verb, auth) ==> !ok && nonces.table == old(nonces.table)
    ensures RightResponse(md5, cred, verb, auth) ==>
              && ok == Decides(old(nonces.table), now, auth.nonce, UseOf(auth.nc))
              && nonces.table == Accept(old(nonces.table), now, auth.nonce, UseOf(auth.nc))
  {
    if cred.None? || auth.username != cred.value.username {
      return false;
    }
    var expected := Expected(md5, cred.value, verb, auth);
    if auth.response != expected {
      return false;
    }
    ok := nonces.AcceptNonce(now, auth.nonce, auth.nc);
  }

  /** A server without authentication, or one with it and perhaps with credentials. */
  datatype Config = Open | Guarded(cred: Option<Credentials>)

  /** What a request brings: its parameters, the clock readings for the check and for a new challenge, and
      the nonce that challenge would carry. */
  datatype Request = Request(verb: string, auth: Option<DigestAuth>, now: nat, later: nat, minted: string)

  predicate Right(md5: string -> string, cred: Option<Credentials>, r: Request) {
    r.auth.Some? && RightResponse(md5, cred, r.verb, r.auth.value)
  }

  predicate Passes(md5: string -> string, cred: Option<Credentials>, m: Table, r: Request) {
    Right(md5, cred, r) && Decides(m, r.now, r.auth.value.nonce, UseOf(r.auth.value.nc))
  }

  /** The table after a request. */
  function Serve(md5: string -> string, cred: Option<Credentials>, m: Table, r: Request): Table {
    var used := if Right(md5, cred, r) then Accept(m, r.now, r.auth.value.nonce, UseOf(r.auth.value.nc)) else m;
    if Passes(md5, cred, m, r) then used else Issue(used, r.later, r.minted)
  }

  /** Lets the request through, or answers it with a new challenge. */
  method HandleRequest(md5: string -> string, nonces: Nonces, config: Config, r: Request)
    returns (passed: bool, challenge: Option<string>)
    modifies nonces
    ensures passed <==> config.Open? || Passes(md5, config.cred, old(nonces.table), r)
    ensures challenge == if passed then None else Some(r.minted)
    ensures nonces.table == if config.Open? then old(nonces.table) else Serve(md5, config.cred, old(nonces.table), r)
  {
    passed, challenge := config.Open?, None;
    if config.Guarded? {
      if r.auth.Some? {
        passed := ValidateDigest(md5, nonces, config.cred, r.verb, r.auth.value, r.now);
      }
      if !passed {
        nonces.IssueNonce(r.later, r.minted);
        challenge := Some(r.minted);
      }
    }
  }

  // ----- runs of requests ------------------------------------------------------------------------------------

  function TableAfter(md5: string -> string, cred: Option<Credentials>, rs: seq<Request>): Table {
    if rs == [] then map[] else Serve(md5, cred, TableAfter(md5, cred, rs[..|rs| - 1]), rs[|rs| - 1])
  }

  /** Request k is let through. */
  predicate PassesAt(md5: string -> string, cred: Option<Credentials>, rs: seq<Request>, k: nat) {
    k < |rs| && Passes(md5, cred, TableAfter(md5, cred, rs[..k]), rs[k])
  }

  /** The calls on the table a request makes. */
  function CallsOf(md5: string -> string, cred: Option<Credentials>, m: Table, r: Request): seq<Call> {
    (if Right(md5, cred, r) then [AcceptCall(r.now, r.auth.value.nonce, UseOf(r.auth.value.nc))] else [])
    + (if Passes(md5, cred, m, r) then [] else [IssueCall(r.later, r.minted)])
  }

  function AllCalls(md5: string -> string, cred: Option<Credentials>, rs: seq<Request>): seq<Call> {
    if rs == [] then []
    else
      var init := rs[..|rs| - 1];
      AllCalls(md5, cred, init) + CallsOf(md5, cred, TableAfter(md5, cred, init), rs[|rs| - 1])
  }

  /** The clock never runs backwards and no two challenges carry the same nonce. */
  predicate LegalRequests(rs: seq<Request>) {
    && (forall i :: 0 <= i < |rs| ==> rs[i].now <= rs[i].later)
    && (forall i, j :: 0 <= i < j < |rs| ==> rs[i].later <= rs[j].now && rs[i].minted != rs[j].minted)
  }

  lemma {:induction false} RunSnoc(cs: seq<Call>, c: Call)
    ensures RunCalls(cs + [c]) == Do(RunCalls(cs), c)
  {
    assert (cs + [c])[..|cs|] == cs;
  }

  /** The calls of one request, made one after the other. */
  function AfterRequest(md5: string -> string, cred: Option<Credentials>, w: World, r: Request): World {
    var used := if Right(md5, cred, r) then Do(w, AcceptCall(r.now, r.auth.value.nonce, UseOf(r.auth.value.nc))) else w;
    if Passes(md5, cred, w.table, r) then used else Do(used, IssueCall(r.later, r.minted))
  }

  lemma {:induction false} RequestRun(md5: string -> string, cred: Option<Credentials>, cs: seq<Call>, r: Request)
    ensures RunCalls(cs + CallsOf(md5, cred, RunCalls(cs).table, r)) == AfterRequest(md5, cred, RunCalls(cs), r)
  {
    hide Do, Decides, RightResponse, RunCalls;
    var m := RunCalls(cs).table;
    var use := if Right(md5, cred, r) then [AcceptCall(r.now, r.auth.value.nonce, UseOf(r.auth.value.nc))] else [];
    if Right(md5, cred, r) {
      RunSnoc(cs, use[0]);
    }
    assert cs + [] == cs;
    if Passes(md5, cred, m, r) {
      assert CallsOf(md5, cred, m, r) == use;
    } else {
      RunSnoc(cs + use, IssueCall(r.later, r.minted));
      assert cs + CallsOf(md5, cred, m, r) == cs + use + [IssueCall(r.later, r.minted)];
    }
  }

  lemma {:induction false} ServeIsCalls(md5: string -> string, cred: Option<Credentials>, cs: seq<Call>, r: Request)
    ensures var m := RunCalls(cs).table;
            RunCalls(cs + CallsOf(md5, cred, m, r)).table == Serve(md5, cred, m, r)
  {
    hide Issue, Accept, Decides, RightResponse, RunCalls;
    RequestRun(md5, cred, cs, r);
  }

  /** The table after a run of requests is the table after their calls. */
  lemma {:induction false} RequestsAreCalls(md5: string -> string, cred: Option<Credentials>, rs: seq<Request>)
    ensures RunCalls(AllCalls(md5, cred, rs)).table == TableAfter(md5, cred, rs)
  {
    hide Serve, CallsOf;
    if rs != [] {
      var init := rs[..|rs| - 1];
      RequestsAreCalls(md5, cred, init);
      ServeIsCalls(md5, cred, AllCalls(md5, cred, init), rs[|rs| - 1]);
    }
  }

  lemma {:induction false} LegalConcat(cs: seq<Call>, ds: seq<Call>)
    requires Legal(cs) && Legal(ds)
    requires forall c, d :: c in cs && d in ds ==>
               c.now <= d.now && (c.IssueCall? && d.IssueCall? ==> c.nonce != d.nonce)
    ensures Legal(cs + ds)
  {
    var all := cs + ds;
    forall i, j | 0 <= i < j < |all|
      ensures all[i].now <= all[j].now && (all[i].IssueCall? && all[j].IssueCall? ==> all[i].nonce != all[j].nonce)
    {
      if i < |cs| <= j {
        assert all[i] in cs && all[j] in ds;
      } else if j < |cs| {
        assert all[i] == cs[i] && all[j] == cs[j];
      } else {
        assert all[i] == ds[i - |cs|] && all[j] == ds[j - |cs|];
      }
    }
  }

  /** The call was made by the request. */
  predicate Made(r: Request, c: Call) {
    r.now <= c.now <= r.later && (c.IssueCall? ==> c.nonce == r.minted)
  }

  lemma {:induction false} RequestIsLegal(md5: string -> string, cred: Option<Credentials>, m: Table, r: Request)
    requires r.now <= r.later
    ensures Legal(CallsOf(md5, cred, m, r)) && forall c :: c in CallsOf(md5, cred, m, r) ==> Made(r, c)
  {
    hide Passes, Right;
  }

  /** A call of an earlier request against one of the last. */
  lemma {:induction false} MadeEarlier(rs: seq<Request>, q: Request, c: Call, d: Call)
    requires LegalRequests(rs) && rs != [] && q in rs[..|rs| - 1] && Made(q, c) && Made(rs[|rs| - 1], d)
    ensures c.now <= d.now && (c.IssueCall? && d.IssueCall? ==> c.nonce != d.nonce)
  {
    var i :| 0 <= i < |rs| - 1 && rs[i] == q;
  }

  /** The calls of a run of requests are legal, and each was made by one of them. */
  lemma {:induction false} RequestsAreLegal(md5: string -> string, cred: Option<Credentials>, rs: seq<Request>)
    requires LegalRequests(rs)
    ensures Legal(AllCalls(md5, cred, rs))
    ensures forall c :: c in AllCalls(md5, cred, rs) ==> exists r :: r in rs && Made(r, c)
  {
    hide Legal, CallsOf, TableAfter, Made;
    if rs == [] {
      NoCalls();
    } else {
      var init, r := rs[..|rs| - 1], rs[|rs| - 1];
      assert r in rs && r.now <= r.later;
      assert forall q :: q in init ==> q in rs;
      RequestsAreLegal(md5, cred, init);
      var cs, ds := AllCalls(md5, cred, init), CallsOf(md5, cred, TableAfter(md5, cred, init), r);
      RequestIsLegal(md5, cred, TableAfter(md5, cred, init), r);
      forall c, d | c in cs && d in ds
        ensures c.now <= d.now && (c.IssueCall? && d.IssueCall? ==> c.nonce != d.nonce)
      {
        var q :| q in init && Made(q, c);
        MadeEarlier(rs, q, c, d);
      }
      LegalConcat(cs, ds);
    }
  }

  lemma {:induction false} NoCalls()
    ensures Legal([])
  {
  }

  lemma {:induction false} CallsPrefix(md5: string -> string, cred: Option<Credentials>, rs: seq<Request>, k: nat)
    requires k <= |rs|
    ensures AllCalls(md5, cred, rs[..k]) <= AllCalls(md5, cred, rs)
  {
    if k == |rs| {
      assert rs[..k] == rs;
    } else {
      var init := rs[..|rs| - 1];
      CallsPrefix(md5, cred, init, k);
      assert init[..k] == rs[..k];
    }
  }

  /** A request that passes is an acceptance in the history of the run. */
  lemma {:induction false} PassIsAccepted(md5: string -> string, cred: Option<Credentials>, rs: seq<Request>, k: nat)
    requires PassesAt(md5, cred, rs, k)
    ensures var cs, p := AllCalls(md5, cred, rs), |AllCalls(md5, cred, rs[..k])|;
            && p < |AllCalls(md5, cred, rs[..k + 1])| <= |cs|
            && RunCalls(cs).history[p] == Used(rs[k].now, rs[k].auth.value.nonce, UseOf(rs[k].auth.value.nc), true)
  {
    hide Decides, RightResponse, TableAfter, Do;
    var before, upto, cs := AllCalls(md5, cred, rs[..k]), AllCalls(md5, cred, rs[..k + 1]), AllCalls(md5, cred, rs);
    var c := AcceptCall(rs[k].now, rs[k].auth.value.nonce, UseOf(rs[k].auth.value.nc));
    assert rs[..k + 1][..k] == rs[..k];
    assert upto == before + [c];
    CallsPrefix(md5, cred, rs, k + 1);
    assert cs[..|before| + 1] == upto;
    RequestsAreCalls(md5, cred, rs[..k]);
    RunSnoc(before, c);
    HistoryPrefix(cs, |before| + 1);
    LastEvent(RunCalls(before), c);
  }

  lemma {:induction false} LastEvent(w: World, c: Call)
    ensures Do(w, c).history == w.history + [EventOf(w, c)]
  {
  }

  /** No replay: in any run, whatever else happens in it, once a request was let through no later one with
      the same nonce and the same counter text (or again none) is, however right its response. */
  lemma {:induction false} NoReplay(md5: string -> string, cred: Option<Credentials>, rs: seq<Request>, i: nat, j: nat)
    requires LegalRequests(rs) && i < j
    ensures PassesAt(md5, cred, rs, i) && PassesAt(md5, cred, rs, j) ==>
              rs[i].auth.value.nonce != rs[j].auth.value.nonce || rs[i].auth.value.nc != rs[j].auth.value.nc
  {
    hide RunCalls, TableAfter, AllCalls, Decides, RightResponse, UseOf;
    if PassesAt(md5, cred, rs, i) && PassesAt(md5, cred, rs, j) {
      var cs := AllCalls(md5, cred, rs);
      RequestsAreLegal(md5, cred, rs);
      PassIsAccepted(md5, cred, rs, i);
      PassIsAccepted(md5, cred, rs, j);
      CallsPrefix(md5, cred, rs[..j], i + 1);
      assert rs[..j][..i + 1] == rs[..i + 1];
      var p, q := |AllCalls(md5, cred, rs[..i])|, |AllCalls(md5, cred, rs[..j])|;
      if rs[i].auth.value.nonce == rs[j].auth.value.nonce {
        AcceptedCountersIncrease(cs, p, q);
      }
    }
  }

  // ----- what the response does not cover ---------------------------------------------------------------------

  /** Without qop or without cnonce the response says nothing about the counter. */
  lemma {:induction false} ResponseIgnoresCounter(md5: string -> string, cred: Option<Credentials>, verb: string,
                                                  auth: DigestAuth, nc: Option<string>)
    requires auth.qop.None? || auth.cnonce.None?
    ensures RightResponse(md5, cred, verb, auth) <==> RightResponse(md5, cred, verb, auth.(nc := nc))
  {
  }

  /** A request that passed is an acceptance of its nonce with this use. */
  predicate PassedWith(md5: string -> string, cred: Option<Credentials>, rs: seq<Request>, k: nat,
                       nonce: string, use: Use)
  {
    PassesAt(md5, cred, rs, k) && rs[k].auth.value.nonce == nonce && UseOf(rs[k].auth.value.nc) == use
  }

  /** What the history says of a nonce, in terms of the requests that passed. */
  ghost predicate Reflects(md5: string -> string, cred: Option<Credentials>, rs: seq<Request>, h: seq<Event>,
                           nonce: string)
  {
    && (Consumed(h, nonce) <==> exists k: nat :: k < |rs| && PassedWith(md5, cred, rs, k, nonce, NoCounter))
    && (forall k: nat, n: nat :: k < |rs| && PassedWith(md5, cred, rs, k, nonce, Counter(n)) ==> n <= Highest(h, nonce))
    && (Highest(h, nonce) > 0 ==>
          exists k: nat :: k < |rs| && PassedWith(md5, cred, rs, k, nonce, Counter(Highest(h, nonce))))
  }

  lemma {:induction false} PassedBefore(md5: string -> string, cred: Option<Credentials>, rs: seq<Request>, k: nat,
                                        nonce: string, use: Use)
    requires rs != []
    ensures k < |rs| - 1 ==>
              (PassedWith(md5, cred, rs, k, nonce, use) <==> PassedWith(md5, cred, rs[..|rs| - 1], k, nonce, use))
  {
    hide Passes, TableAfter;
    if k < |rs| - 1 {
      assert rs[..|rs| - 1][..k] == rs[..k];
    }
  }

  /** The events of one request. */
  lemma {:induction false} RequestEvents(md5: string -> string, cred: Option<Credentials>, w: World, r: Request,
                                         nonce: string)
    ensures var h, t := w.history, AfterRequest(md5, cred, w, r).history;
            var use := if Passes(md5, cred, w.table, r) && r.auth.value.nonce == nonce
                       then UseOf(r.auth.value.nc) else Malformed;
            && Consumed(t, nonce) == (Consumed(h, nonce) || use == NoCounter)
            && Highest(t, nonce) == if use.Counter? && use.n > Highest(h, nonce) then use.n else Highest(h, nonce)
  {
    hide Do, Decides, RightResponse, Consumed, Highest;
    var issue := IssueCall(r.later, r.minted);
    if Right(md5, cred, r) {
      var c := AcceptCall(r.now, r.auth.value.nonce, UseOf(r.auth.value.nc));
      EventCounts(w, c, nonce);
      EventCounts(Do(w, c), issue, nonce);
    } else {
      EventCounts(w, issue, nonce);
    }
  }

  lemma {:induction false} EventCounts(w: World, c: Call, nonce: string)
    ensures var h, t, e := w.history, Do(w, c).history, EventOf(w, c);
            var counts := e.Used? && e.accepted && e.nonce == nonce;
            && Consumed(t, nonce) == (Consumed(h, nonce) || (counts && e.use.NoCounter?))
            && Highest(t, nonce) == if counts && e.use.Counter? && e.use.n > Highest(h, nonce) then e.use.n
                                    else Highest(h, nonce)
  {
    var t := Do(w, c).history;
    assert t[..|t| - 1] == w.history;
  }

  lemma {:induction false} HistoryReflects(md5: string -> string, cred: Option<Credentials>, rs: seq<Request>,
                                           nonce: string)
    ensures Reflects(md5, cred, rs, RunCalls(AllCalls(md5, cred, rs)).history, nonce)
  {
    hide RunCalls, TableAfter, CallsOf, Passes, Consumed, Highest, PassedWith;
    if rs == [] {
      NoHistory(nonce);
    } else {
      var init, last := rs[..|rs| - 1], |rs| - 1;
      var cs := AllCalls(md5, cred, init);
      HistoryReflects(md5, cred, init, nonce);
      RequestsAreCalls(md5, cred, init);
      RequestRun(md5, cred, cs, rs[last]);
      RequestEvents(md5, cred, RunCalls(cs), rs[last], nonce);
      ReflectsStep(md5, cred, rs, RunCalls(cs).history, RunCalls(AllCalls(md5, cred, rs)).history, nonce);
    }
  }

  lemma {:induction false} NoHistory(nonce: string)
    ensures !Consumed(RunCalls([]).history, nonce) && Highest(RunCalls([]).history, nonce) == 0
  {
  }

  lemma {:induction false} ReflectsStep(md5: string -> string, cred: Option<Credentials>, rs: seq<Request>,
                                        h: seq<Event>, t: seq<Event>, nonce: string)
    requires rs != [] && Reflects(md5, cred, rs[..|rs| - 1], h, nonce)
    requires var m, r := TableAfter(md5, cred, rs[..|rs| - 1]), rs[|rs| - 1];
             var use := if Passes(md5, cred, m, r) && r.auth.value.nonce == nonce
                        then UseOf(r.auth.value.nc) else Malformed;
             && Consumed(t, nonce) == (Consumed(h, nonce) || use == NoCounter)
             && Highest(t, nonce) == if use.Counter? && use.n > Highest(h, nonce) then use.n else Highest(h, nonce)
    ensures Reflects(md5, cred, rs, t, nonce)
  {
    hide TableAfter, RightResponse, Decides, UseOf, Consumed, Highest, PassedWith;
    var init, last := rs[..|rs| - 1], |rs| - 1;
    var passed := Passes(md5, cred, TableAfter(md5, cred, init), rs[last]) && rs[last].auth.value.nonce == nonce;
    LastPassed(md5, cred, rs, nonce);
    forall k: nat, use | k < |rs|
      ensures PassedWith(md5, cred, rs, k, nonce, use) <==>
              if k < last then PassedWith(md5, cred, init, k, nonce, use)
              else passed && UseOf(rs[last].auth.value.nc) == use
    {
      PassedBefore(md5, cred, rs, k, nonce, use);
    }
    if Consumed(h, nonce) {
      var k: nat :| k < |init| && PassedWith(md5, cred, init, k, nonce, NoCounter);
      assert PassedWith(md5, cred, rs, k, nonce, NoCounter);
    }
    if Highest(h, nonce) > 0 {
      var k: nat :| k < |init| && PassedWith(md5, cred, init, k, nonce, Counter(Highest(h, nonce)));
      assert PassedWith(md5, cred, rs, k, nonce, Counter(Highest(h, nonce)));
    }
    if passed {
      assert PassedWith(md5, cred, rs, last, nonce, UseOf(rs[last].auth.value.nc));
    }
  }

  lemma {:induction false} LastPassed(md5: string -> string, cred: Option<Credentials>, rs: seq<Request>, nonce: string)
    requires rs != []
    ensures var last := |rs| - 1;
            var passed := Passes(md5, cred, TableAfter(md5, cred, rs[..last]), rs[last])
                          && rs[last].auth.value.nonce == nonce;
            forall use :: PassedWith(md5, cred, rs, last, nonce, use) <==>
                          passed && UseOf(rs[last].auth.value.nc) == use
  {
    hide Decides, RightResponse, TableAfter, UseOf;
  }

  /** A request with a right response passes exactly by the rule on the whole history. */
  lemma {:induction false} RightPassesByRule(md5: string -> string, cred: Option<Credentials>, rs: seq<Request>, k: nat)
    requires LegalRequests(rs) && k < |rs| && Right(md5, cred, rs[k])
    ensures var h := RunCalls(AllCalls(md5, cred, rs[..k])).history;
            PassesAt(md5, cred, rs, k) <==>
            ShouldAccept(h, rs[k].now, rs[k].auth.value.nonce, UseOf(rs[k].auth.value.nc))
  {
    hide RightResponse, Decides, ShouldAccept, RunCalls, TableAfter, AllCalls, CallsOf;
    var before, r := rs[..k], rs[k];
    var cs, c := AllCalls(md5, cred, before), AcceptCall(r.now, r.auth.value.nonce, UseOf(r.auth.value.nc));
    RequestsAreCalls(md5, cred, before);
    RequestsAreLegal(md5, cred, before);
    CallsBefore(md5, cred, rs, k);
    RunTracks(cs);
    DoTracks(RunCalls(cs), c, LastTime(cs));
  }

  lemma {:induction false} CallsBefore(md5: string -> string, cred: Option<Credentials>, rs: seq<Request>, k: nat)
    requires LegalRequests(rs) && k < |rs|
    ensures LegalRequests(rs[..k]) && LastTime(AllCalls(md5, cred, rs[..k])) <= rs[k].now
  {
    hide AllCalls;
    var before, cs := rs[..k], AllCalls(md5, cred, rs[..k]);
    assert LegalRequests(before);
    RequestsAreLegal(md5, cred, before);
    if cs != [] {
      assert cs[|cs| - 1] in cs;
      var q :| q in before && Made(q, cs[|cs| - 1]);
      var i :| 0 <= i < k && rs[i] == q;
    }
  }

  /** A captured response of that kind, sent again later in any run with another counter or without one:
      it passes exactly when its nonce is still fresh, no request passed on it without a counter, and its
      counter, if it has one, is larger than that of every request that passed on it. */
  lemma {:induction false} CapturedResponse(md5: string -> string, cred: Option<Credentials>, rs: seq<Request>,
                                            i: nat, j: nat)
    requires LegalRequests(rs) && i < j < |rs| && PassesAt(md5, cred, rs, i)
    requires rs[j].auth.Some? && rs[j].verb == rs[i].verb
    requires var auth := rs[i].auth.value;
             rs[j].auth.value == auth.(nc := rs[j].auth.value.nc) && (auth.qop.None? || auth.cnonce.None?)
    ensures var nonce, use := rs[j].auth.value.nonce, UseOf(rs[j].auth.value.nc);
            PassesAt(md5, cred, rs, j) <==>
            && Fresh(RunCalls(AllCalls(md5, cred, rs[..j])).history, nonce, rs[j].now)
            && !use.Malformed?
            && (forall k :: 0 <= k < j && PassesAt(md5, cred, rs, k) && rs[k].auth.value.nonce == nonce ==>
                  var earlier := UseOf(rs[k].auth.value.nc);
                  earlier.Counter? && (use.Counter? ==> use.n > earlier.n))
  {
    hide RightResponse, Decides, RunCalls, TableAfter, AllCalls, CallsOf, UseOf;
    var nonce, use := rs[j].auth.value.nonce, UseOf(rs[j].auth.value.nc);
    ResponseIgnoresCounter(md5, cred, rs[i].verb, rs[i].auth.value, rs[j].auth.value.nc);
    RightPassesByRule(md5, cred, rs, j);
    HistoryReflects(md5, cred, rs[..j], nonce);
    RuleOnPasses(md5, cred, rs, RunCalls(AllCalls(md5, cred, rs[..j])).history, i, j, nonce, use);
  }

  predicate Fresh(h: seq<Event>, nonce: string, now: nat) {
    IssueTime(h, nonce).Some? && Elapsed(now, IssueTime(h, nonce).value) < NONCE_TTL
  }

  lemma {:induction false} PassedPrefix(md5: string -> string, cred: Option<Credentials>, rs: seq<Request>, j: nat,
                                        k: nat, nonce: string, use: Use)
    requires k < j <= |rs|
    ensures PassedWith(md5, cred, rs[..j], k, nonce, use) <==> PassedWith(md5, cred, rs, k, nonce, use)
  {
    hide Passes, TableAfter;
    assert rs[..j][..k] == rs[..k];
  }

  /** An accepted use is never malformed. */
  lemma {:induction false} PassedUse(md5: string -> string, cred: Option<Credentials>, rs: seq<Request>, k: nat)
    requires PassesAt(md5, cred, rs, k)
    ensures var use := UseOf(rs[k].auth.value.nc);
            !use.Malformed? && (use.Counter? ==> use.n > 0)
            && PassedWith(md5, cred, rs, k, rs[k].auth.value.nonce, use)
  {
    hide RightResponse, TableAfter, UseOf;
  }

  lemma {:induction false} RuleOnPasses(md5: string -> string, cred: Option<Credentials>, rs: seq<Request>,
                                        h: seq<Event>, i: nat, j: nat, nonce: string, use: Use)
    requires i < j < |rs|
    ensures PassesAt(md5, cred, rs, i) && rs[i].auth.value.nonce == nonce && Reflects(md5, cred, rs[..j], h, nonce) ==>
              (ShouldAccept(h, rs[j].now, nonce, use) <==>
               && Fresh(h, nonce, rs[j].now) && !use.Malformed?
               && (forall k :: 0 <= k < j && PassesAt(md5, cred, rs, k) && rs[k].auth.value.nonce == nonce ==>
                     var earlier := UseOf(rs[k].auth.value.nc);
                     earlier.Counter? && (use.Counter? ==> use.n > earlier.n)))
  {
    hide PassedWith, RightResponse, Decides, TableAfter, UseOf, Consumed, Highest, IssueTime;
    var before := rs[..j];
    forall k, u | 0 <= k < j
      ensures PassedWith(md5, cred, before, k, nonce, u) <==> PassedWith(md5, cred, rs, k, nonce, u)
    {
      PassedPrefix(md5, cred, rs, j, k, nonce, u);
    }
    forall k | 0 <= k < j && PassesAt(md5, cred, rs, k) && rs[k].auth.value.nonce == nonce
      ensures var u := UseOf(rs[k].auth.value.nc);
              !u.Malformed? && (u.Counter? ==> u.n > 0) && PassedWith(md5, cred, rs, k, nonce, u)
    {
      PassedUse(md5, cred, rs, k);
    }
    forall k, u | 0 <= k < j && PassedWith(md5, cred, rs, k, nonce, u)
      ensures PassesAt(md5, cred, rs, k) && rs[k].auth.value.nonce == nonce && UseOf(rs[k].auth.value.nc) == u
    {
      PassedIs(md5, cred, rs, k, nonce, u);
    }
  }

  lemma {:induction false} PassedIs(md5: string -> string, cred: Option<Credentials>, rs: seq<Request>, k: nat,
                                    nonce: string, use: Use)
    requires PassedWith(md5, cred, rs, k, nonce, use)
    ensures PassesAt(md5, cred, rs, k) && rs[k].auth.value.nonce == nonce && UseOf(rs[k].auth.value.nc) == use
  {
  }
}
