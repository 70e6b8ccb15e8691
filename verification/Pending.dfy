/** Which reply goes to which operation (web-davserver/src/lib.rs 17-33, 178-200, and the program every
    operation of web-davserver/src/fs.rs runs: open a channel, register, ask, wait, return, drop the guard,
    drop the receiver).

    Feeding a reply takes two steps, as in the code: the sender is looked up under the lock and used
    after the lock is released, so operations may end in between and other feeds may overtake. */
module Pending {
  import opened Options

  type Id = string

  /** A message from the peer; only replies carry the id of the request they answer. */
  datatype Msg = Reply(id: Id, body: string) | Other(body: string)

  /** The n-th message fed. */
  datatype Fed = Fed(n: nat, msg: Msg)

  /** How far an operation is. Every exit path, also giving up at an await, goes through Returned; the
      guard is dropped before the receiver. */
  datatype Phase = Opened | Registered | Asked | Returned | Unguarded | Closed

  /** pending: the keys of the global map. queues: the live receivers and what waits in them.
      held: replies whose sender has been looked up but not used yet. */
  datatype State = State(pending: set<Id>, ops: map<Id, Phase>, queues: map<Id, seq<Fed>>, held: seq<Fed>)

  const EMPTY := State({}, map[], map[], [])

  datatype Action =
    | Open(id: Id)
    | Register(id: Id)
    | Ask(id: Id)
    | Receive(id: Id)
    | Return(id: Id)
    | DropGuard(id: Id)
    | DropReceiver(id: Id)
    | LookUp(msg: Msg)
    | Push(k: nat)

  predicate At(s: State, id: Id, phase: Phase) {
    id in s.ops && s.ops[id] == phase
  }

  /** Each operation follows its program, with an id of its own; feeders do as they like. */
  predicate Enabled(s: State, a: Action) {
    match a
    case Open(id) => id !in s.ops
    case Register(id) => At(s, id, Opened)
    case Ask(id) => At(s, id, Registered)
    case Receive(id) => At(s, id, Asked) && id in s.queues && s.queues[id] != []
    case Return(id) => At(s, id, Registered) || At(s, id, Asked)
    case DropGuard(id) => At(s, id, Returned)
    case DropReceiver(id) => At(s, id, Unguarded) && id in s.queues
    case LookUp(_) => true
    case Push(k) => k < |s.held|
  }

  /** A reply whose id is in the map is claimed; everything else goes back to the caller. */
  predicate Claims(s: State, msg: Msg) {
    msg.Reply? && msg.id in s.pending
  }

  /** The receiver of a held reply still exists. */
  predicate StillOpen(s: State, m: Fed) {
    m.msg.Reply? && m.msg.id in s.queues
  }

  /** The message is a reply to this operation. */
  predicate For(m: Fed, id: Id) {
    m.msg.Reply? && m.msg.id == id
  }

  function Without(ms: seq<Fed>, k: nat): seq<Fed>
    requires k < |ms|
  {
    ms[..k] + ms[k + 1..]
  }

  /** What happened so far: all fed messages, those claimed (in lookup order) and handed back, those that
      reached a queue (in push order) or a closed channel, and what each operation took or left unread. */
  datatype Log = Log(fed: seq<Fed>, claimed: seq<Fed>, back: seq<Fed>, delivered: seq<Fed>, lost: seq<Fed>,
                     received: map<Id, seq<Fed>>, unread: map<Id, seq<Fed>>)

  const NOTHING := Log([], [], [], [], [], map[], map[])

  datatype World = World(s: State, l: Log)

  const START := World(EMPTY, NOTHING)

  function Step(w: World, a: Action): World
    requires Enabled(w.s, a)
  {
    var s, l := w.s, w.l;
    match a
    case Open(id) =>
      World(s.(ops := s.ops[id := Opened], queues := s.queues[id := []]),
            l.(received := l.received[id := []], unread := l.unread[id := []]))
    case Register(id) => World(s.(ops := s.ops[id := Registered], pending := s.pending + {id}), l)
    case Ask(id) => World(s.(ops := s.ops[id := Asked]), l)
    case Receive(id) =>
      World(s.(queues := s.queues[id := s.queues[id][1..]]),
            l.(received := l.received[id := Of(l.received, id) + [s.queues[id][0]]]))
    case Return(id) => World(s.(ops := s.ops[id := Returned]), l)
    case DropGuard(id) => World(s.(ops := s.ops[id := Unguarded], pending := s.pending - {id}), l)
    case DropReceiver(id) =>
      World(s.(ops := s.ops[id := Closed], queues := s.queues - {id}), l.(unread := l.unread[id := s.queues[id]]))
    case LookUp(msg) =>
      var m := Fed(|l.fed|, msg);
      if Claims(s, msg) then
        World(s.(held := s.held + [m]), l.(fed := l.fed + [m], claimed := l.claimed + [m]))
      else World(s, l.(fed := l.fed + [m], back := l.back + [m]))
    case Push(k) =>
      var m := s.held[k];
      var rest := s.(held := Without(s.held, k));
      if StillOpen(s, m) then
        World(rest.(queues := s.queues[m.msg.id := s.queues[m.msg.id] + [m]]), l.(delivered := l.delivered + [m]))
      else World(rest, l.(lost := l.lost + [m]))
  }

  predicate EnabledAll(w: World, acts: seq<Action>)
    decreases |acts|
  {
    acts == [] || (Enabled(w.s, acts[0]) && EnabledAll(Step(w, acts[0]), acts[1..]))
  }

  function Run(w: World, acts: seq<Action>): World
    requires EnabledAll(w, acts)
    decreases |acts|
  {
    if acts == [] then w else Run(Step(w, acts[0]), acts[1..])
  }

  function Of(m: map<Id, seq<Fed>>, id: Id): seq<Fed> {
    if id in m then m[id] else []
  }

  /** The replies of a list that carry this id, in order. */
  function Carrying(ms: seq<Fed>, id: Id): seq<Fed> {
    if ms == [] then []
    else
      var m := ms[|ms| - 1];
      Carrying(ms[..|ms| - 1], id) + if For(m, id) then [m] else []
  }

  // ----- the map and the operations -----------------------------------------------------------------------

  predicate InFlight(phase: Phase) {
    phase.Registered? || phase.Asked? || phase.Returned?
  }

  /** The pending map holds exactly the operations between their registration and the drop of their guard,
      a receiver exists exactly until it is dropped, and replies are held or lost only for operations that
      registered, lost only for closed ones. */
  ghost predicate Roles(s: State, l: Log) {
    MapRoles(s) && MessageRoles(s, l)
  }

  ghost predicate MapRoles(s: State) {
    && (forall id :: id in s.pending <==> id in s.ops && InFlight(s.ops[id]))
    && (forall id :: id in s.queues <==> id in s.ops && !s.ops[id].Closed?)
  }

  ghost predicate MessageRoles(s: State, l: Log) {
    && (forall m :: m in s.held || m in l.claimed ==> m.msg.Reply? && m.msg.id in s.ops && !s.ops[m.msg.id].Opened?)
    && (forall m :: m in l.lost ==> m.msg.Reply? && At(s, m.msg.id, Closed))
  }

  /** Every fed message is in exactly one of these places. */
  ghost predicate Conserved(w: World) {
    && multiset(w.l.fed) == multiset(w.l.back) + multiset(w.l.claimed)
    && multiset(w.l.claimed) == multiset(w.s.held) + multiset(w.l.delivered) + multiset(w.l.lost)
  }

  /** What an operation has received, then what waits for it or was left unread, is what reached its queue. */
  ghost predicate Delivery(w: World) {
    && (forall id :: Of(w.l.received, id) + Of(w.s.queues, id) + Of(w.l.unread, id) == Carrying(w.l.delivered, id))
    && (forall id :: id in w.l.received || id in w.l.unread ==> id in w.s.ops)
    && (forall id :: id in w.s.queues ==> Of(w.l.unread, id) == [])
  }

  predicate Increasing(ms: seq<Fed>) {
    forall i, j :: 0 <= i < j < |ms| ==> ms[i].n < ms[j].n
  }

  /** Claimed and held replies keep the order of their feeding; what was delivered is not held any more. */
  ghost predicate Ordered(w: World) {
    && Increasing(w.l.claimed) && Increasing(w.s.held)
    && (forall m :: m in w.l.claimed ==> m.n < |w.l.fed|)
    && (forall m :: m in w.s.held ==> m in w.l.claimed && m !in w.l.delivered)
    && (forall m :: m in w.l.delivered ==> m in w.l.claimed)
  }

  ghost predicate Inv(w: World) {
    Roles(w.s, w.l) && Conserved(w) && Delivery(w) && Ordered(w)
  }

  lemma {:induction false} CarryingAppend(ms: seq<Fed>, m: Fed, id: Id)
    ensures Carrying(ms + [m], id) == Carrying(ms, id) + if For(m, id) then [m] else []
  {
    assert (ms + [m])[..|ms|] == ms;
  }

  lemma {:induction false} TakeOne(ms: seq<Fed>, k: nat)
    requires k < |ms|
    ensures multiset(ms) == multiset(Without(ms, k)) + multiset{ms[k]}
    ensures forall m :: m in Without(ms, k) ==> m in ms
  {
    assert ms == ms[..k] + [ms[k]] + ms[k + 1..];
  }

  lemma {:induction false} StepMapRoles(w: World, a: Action)
    requires MapRoles(w.s) && Enabled(w.s, a)
    ensures MapRoles(Step(w, a).s)
  {
    hide Without;
    var s, t := w.s, Step(w, a).s;
    match a
    case Push(k) =>
    case LookUp(_) =>
    case Receive(id) => assert t.queues.Keys == s.queues.Keys;
    case Open(id) =>
    case Register(id) =>
    case Ask(id) =>
    case Return(id) =>
    case DropGuard(id) =>
    case DropReceiver(id) =>
  }

  lemma {:induction false} PushRoles(w: World, k: nat)
    requires Roles(w.s, w.l) && k < |w.s.held|
    ensures MessageRoles(Step(w, Push(k)).s, Step(w, Push(k)).l)
  {
    hide Without;
    TakeOne(w.s.held, k);
    assert w.s.held[k] in w.s.held;
  }

  /** An operation that moves on is still not Opened, and a closed one does not move. */
  lemma {:induction false} PhaseRoles(w: World, t: World, id: Id, phase: Phase)
    requires MessageRoles(w.s, w.l) && !At(w.s, id, Closed) && (phase.Opened? ==> id !in w.s.ops)
    requires t.s.ops == w.s.ops[id := phase] && t.s.held == w.s.held
    requires t.l.claimed == w.l.claimed && t.l.lost == w.l.lost
    ensures MessageRoles(t.s, t.l)
  {
  }

  lemma {:induction false} StepRoles(w: World, a: Action)
    requires Roles(w.s, w.l) && Enabled(w.s, a)
    ensures Roles(Step(w, a).s, Step(w, a).l)
  {
    hide MessageRoles, Without;
    StepMapRoles(w, a);
    var t := Step(w, a);
    match a
    case Push(k) => PushRoles(w, k);
    case LookUp(msg) => LookUpRoles(w, msg);
    case Open(id) => PhaseRoles(w, t, id, Opened);
    case Register(id) => PhaseRoles(w, t, id, Registered);
    case Ask(id) => PhaseRoles(w, t, id, Asked);
    case Return(id) => PhaseRoles(w, t, id, Returned);
    case DropGuard(id) => PhaseRoles(w, t, id, Unguarded);
    case DropReceiver(id) => PhaseRoles(w, t, id, Closed);
    case Receive(id) =>
      assert w.s.ops == w.s.ops[id := Asked];
      PhaseRoles(w, t, id, Asked);
  }

  lemma {:induction false} LookUpRoles(w: World, msg: Msg)
    requires Roles(w.s, w.l)
    ensures MessageRoles(Step(w, LookUp(msg)).s, Step(w, LookUp(msg)).l)
  {
  }

  /** Moving one reply from one place to another. */
  lemma {:induction false} MoveOne(all: multiset<Fed>, held: seq<Fed>, k: nat, a: seq<Fed>, b: seq<Fed>)
    requires k < |held| && all == multiset(held) + multiset(a) + multiset(b)
    ensures all == multiset(Without(held, k)) + multiset(a + [held[k]]) + multiset(b)
    ensures all == multiset(Without(held, k)) + multiset(a) + multiset(b + [held[k]])
  {
    TakeOne(held, k);
  }

  lemma {:induction false} AddOne(all: multiset<Fed>, a: seq<Fed>, b: seq<Fed>, m: Fed)
    requires all == multiset(a) + multiset(b)
    ensures all + multiset{m} == multiset(a + [m]) + multiset(b)
    ensures all + multiset{m} == multiset(a) + multiset(b + [m])
  {
  }

  lemma {:induction false} PushConserved(w: World, k: nat)
    requires Conserved(w) && k < |w.s.held|
    ensures Conserved(Step(w, Push(k)))
  {
    hide Without;
    MoveOne(multiset(w.l.claimed), w.s.held, k, w.l.delivered, w.l.lost);
  }

  lemma {:induction false} LookUpConserved(w: World, msg: Msg)
    requires Conserved(w)
    ensures Conserved(Step(w, LookUp(msg)))
  {
    var l, m := w.l, Fed(|w.l.fed|, msg);
    AddOne(multiset(l.fed), l.back, l.claimed, m);
    assert multiset(l.fed + [m]) == multiset(l.fed) + multiset{m};
    assert multiset(l.claimed + [m]) == multiset(l.claimed) + multiset{m};
    assert multiset(w.s.held + [m]) == multiset(w.s.held) + multiset{m};
  }

  lemma {:induction false} SamePlaces(w: World, t: World)
    requires Conserved(w) && t.s.held == w.s.held
    requires t.l.fed == w.l.fed && t.l.back == w.l.back && t.l.claimed == w.l.claimed
    requires t.l.delivered == w.l.delivered && t.l.lost == w.l.lost
    ensures Conserved(t)
  {
  }

  lemma {:induction false} StepConserved(w: World, a: Action)
    requires Conserved(w) && Enabled(w.s, a)
    ensures Conserved(Step(w, a))
  {
    hide Conserved;
    if a.Push? {
      PushConserved(w, a.k);
    } else if a.LookUp? {
      LookUpConserved(w, a.msg);
    } else {
      SamePlaces(w, Step(w, a));
    }
  }

  lemma {:induction false} PushDelivery(w: World, k: nat)
    requires Roles(w.s, w.l) && Delivery(w) && k < |w.s.held|
    ensures Delivery(Step(w, Push(k)))
  {
    hide Carrying, Roles, Without;
    var m, t := w.s.held[k], Step(w, Push(k));
    if StillOpen(w.s, m) {
      forall id
        ensures Carrying(t.l.delivered, id) == Carrying(w.l.delivered, id) + if m.msg.id == id then [m] else []
      {
        CarryingAppend(w.l.delivered, m, id);
      }
      var id := m.msg.id;
      assert id in w.s.ops by {
        RolesOpen(w, id);
      }
      var got, q := Of(w.l.received, id), Of(w.s.queues, id);
      assert got + q + [] == got + q;
      assert got + (q + [m]) + [] == got + q + [m];
    }
  }

  lemma {:induction false} RolesOpen(w: World, id: Id)
    requires Roles(w.s, w.l) && id in w.s.queues
    ensures id in w.s.ops
  {
  }

  lemma {:induction false} ReceiveDelivery(w: World, id: Id)
    requires Delivery(w) && Enabled(w.s, Receive(id))
    ensures Delivery(Step(w, Receive(id)))
  {
    hide Carrying;
    var t := Step(w, Receive(id));
    forall other ensures Of(t.l.received, other) + Of(t.s.queues, other) + Of(t.l.unread, other)
                      == Carrying(t.l.delivered, other)
    {
      if other == id {
        var got, q, rest := Of(w.l.received, id), w.s.queues[id], Of(w.l.unread, id);
        assert got + [q[0]] + q[1..] == got + q;
      } else {
        assert Of(t.l.received, other) == Of(w.l.received, other) && Of(t.s.queues, other) == Of(w.s.queues, other);
      }
    }
  }

  lemma {:induction false} DropDelivery(w: World, id: Id)
    requires Delivery(w) && Enabled(w.s, DropReceiver(id))
    ensures Delivery(Step(w, DropReceiver(id)))
  {
    hide Carrying;
    var got, q := Of(w.l.received, id), w.s.queues[id];
    assert got + q + [] == got + [] + q;
  }

  lemma {:induction false} OpenDelivery(w: World, id: Id)
    requires Roles(w.s, w.l) && Delivery(w) && id !in w.s.ops
    ensures Delivery(Step(w, Open(id)))
  {
    hide Carrying;
  }

  lemma {:induction false} SameDelivery(w: World, t: World)
    requires Delivery(w) && t.s.queues == w.s.queues && t.l.delivered == w.l.delivered
    requires t.l.received == w.l.received && t.l.unread == w.l.unread && w.s.ops.Keys <= t.s.ops.Keys
    ensures Delivery(t)
  {
    hide Carrying;
  }

  lemma {:induction false} StepDelivery(w: World, a: Action)
    requires Roles(w.s, w.l) && Delivery(w) && Enabled(w.s, a)
    ensures Delivery(Step(w, a))
  {
    hide Carrying, Delivery, Roles;
    match a
    case Push(k) => PushDelivery(w, k);
    case Receive(id) => ReceiveDelivery(w, id);
    case DropReceiver(id) => DropDelivery(w, id);
    case Open(id) => OpenDelivery(w, id);
    case Register(_) => SameDelivery(w, Step(w, a));
    case Ask(_) => SameDelivery(w, Step(w, a));
    case Return(_) => SameDelivery(w, Step(w, a));
    case DropGuard(_) => SameDelivery(w, Step(w, a));
    case LookUp(_) => SameDelivery(w, Step(w, a));
  }

  lemma {:induction false} IncreasingWithout(ms: seq<Fed>, k: nat)
    requires Increasing(ms) && k < |ms|
    ensures Increasing(Without(ms, k)) && ms[k] !in Without(ms, k)
    ensures forall m :: m in Without(ms, k) ==> m in ms
  {
    var rest := Without(ms, k);
    assert forall i :: 0 <= i < |rest| ==> rest[i] == ms[if i < k then i else i + 1];
  }

  lemma {:induction false} IncreasingAppend(ms: seq<Fed>, m: Fed)
    requires Increasing(ms) && forall x :: x in ms ==> x.n < m.n
    ensures Increasing(ms + [m])
  {
  }

  lemma {:induction false} StepOrdered(w: World, a: Action)
    requires Ordered(w) && Enabled(w.s, a)
    ensures Ordered(Step(w, a))
  {
    hide Increasing, Without;
    if a.Push? {
      IncreasingWithout(w.s.held, a.k);
      assert w.s.held[a.k] in w.s.held;
    } else if a.LookUp? && Claims(w.s, a.msg) {
      IncreasingAppend(w.l.claimed, Fed(|w.l.fed|, a.msg));
      IncreasingAppend(w.s.held, Fed(|w.l.fed|, a.msg));
    }
  }

  lemma {:induction false} StepInv(w: World, a: Action)
    requires Inv(w) && Enabled(w.s, a)
    ensures Inv(Step(w, a))
  {
    hide Roles, Delivery, Conserved, Ordered;
    StepRoles(w, a);
    StepDelivery(w, a);
    StepConserved(w, a);
    StepOrdered(w, a);
  }

  lemma {:induction false} RunInv(w: World, acts: seq<Action>)
    requires Inv(w) && EnabledAll(w, acts)
    ensures Inv(Run(w, acts))
    decreases |acts|
  {
    hide Inv;
    if acts != [] {
      StepInv(w, acts[0]);
      RunInv(Step(w, acts[0]), acts[1..]);
    }
  }

  lemma {:induction false} Correlation(acts: seq<Action>)
    requires EnabledAll(START, acts)
    ensures Inv(Run(START, acts))
  {
    assert Inv(START);
    RunInv(START, acts);
  }

  /** While an operation waits, its sender is in the map, so its receiver is never told that all senders
      are gone. */
  lemma {:induction false} WaitersAreRegistered(acts: seq<Action>, id: Id)
    requires EnabledAll(START, acts)
    ensures var s := Run(START, acts).s;
            At(s, id, Asked) ==> id in s.pending && id in s.queues
  {
    Correlation(acts);
  }

  // ----- the order of the replies ---------------------------------------------------------------------------

  /** Held reply k would get into an open queue before an earlier reply of its operation. */
  predicate Jumps(s: State, k: nat)
    requires k < |s.held|
  {
    StillOpen(s, s.held[k]) && exists j :: 0 <= j < k && For(s.held[j], s.held[k].msg.id)
  }

  /** No reply of the operation ever jumps. */
  predicate Orderly(w: World, acts: seq<Action>, id: Id)
    requires EnabledAll(w, acts)
    decreases |acts|
  {
    acts != [] ==>
      && (acts[0].Push? && For(w.s.held[acts[0].k], id) ==> !Jumps(w.s, acts[0].k))
      && Orderly(Step(w, acts[0]), acts[1..], id)
  }

  /** Nothing of the operation was overtaken so far: while its queue is open, what was delivered and what
      is held are together all it was fed, in feed order. */
  ghost predicate InStep(w: World, id: Id) {
    var all, delivered := Carrying(w.l.claimed, id), Carrying(w.l.delivered, id);
    if id in w.s.queues then delivered + Carrying(w.s.held, id) == all else delivered <= all
  }

  /** A reply was delivered before one that was fed earlier. */
  ghost predicate Overtaken(w: World, id: Id) {
    var all, delivered := Carrying(w.l.claimed, id), Carrying(w.l.delivered, id);
    exists i, m :: 0 <= i < |delivered| && m in all && m.n < delivered[i].n && m !in delivered[..i]
  }

  lemma {:induction false} CarryingMember(ms: seq<Fed>, id: Id, m: Fed)
    ensures m in Carrying(ms, id) <==> m in ms && For(m, id)
  {
    if ms != [] {
      CarryingMember(ms[..|ms| - 1], id, m);
      assert ms == ms[..|ms| - 1] + [ms[|ms| - 1]];
    }
  }

  lemma {:induction false} CarryingNone(ms: seq<Fed>, id: Id)
    requires forall m :: m in ms ==> !For(m, id)
    ensures Carrying(ms, id) == []
  {
    if Carrying(ms, id) != [] {
      CarryingMember(ms, id, Carrying(ms, id)[0]);
    }
  }

  lemma {:induction false} CarryingConcat(a: seq<Fed>, b: seq<Fed>, id: Id)
    ensures Carrying(a + b, id) == Carrying(a, id) + Carrying(b, id)
  {
    if b == [] {
      assert a + b == a;
    } else {
      var init, last := b[..|b| - 1], b[|b| - 1];
      CarryingConcat(a, init, id);
      CarryingAppend(a + init, last, id);
      assert a + b == a + init + [last];
    }
  }

  lemma {:induction false} CarryingIncreasing(ms: seq<Fed>, id: Id)
    requires Increasing(ms)
    ensures Increasing(Carrying(ms, id))
  {
    if ms != [] {
      var init, last := ms[..|ms| - 1], ms[|ms| - 1];
      CarryingIncreasing(init, id);
      forall m | m in Carrying(init, id) ensures m.n < last.n {
        CarryingMember(init, id, m);
      }
      IncreasingAppend(Carrying(init, id), last);
    }
  }

  /** Taking out one reply: nothing for other operations, the first for its own when it is the earliest. */
  lemma {:induction false} CarryingWithout(ms: seq<Fed>, k: nat, id: Id)
    requires k < |ms|
    ensures !For(ms[k], id) ==> Carrying(Without(ms, k), id) == Carrying(ms, id)
    ensures For(ms[k], id) && (forall j :: 0 <= j < k ==> !For(ms[j], id)) ==>
              Carrying(ms, id) == [ms[k]] + Carrying(Without(ms, k), id)
  {
    hide Carrying;
    var a, m, b := ms[..k], ms[k], ms[k + 1..];
    assert ms == a + [m] + b;
    CarryingConcat(a + [m], b, id);
    CarryingAppend(a, m, id);
    CarryingConcat(a, b, id);
    assert Carrying(a, id) + [] == Carrying(a, id);
    if forall j :: 0 <= j < k ==> !For(ms[j], id) {
      CarryingNone(a, id);
    }
  }

  lemma {:induction false} LookUpInStep(w: World, msg: Msg, id: Id)
    requires Roles(w.s, w.l) && InStep(w, id)
    ensures InStep(Step(w, LookUp(msg)), id)
  {
    hide Carrying;
    var m := Fed(|w.l.fed|, msg);
    CarryingAppend(w.s.held, m, id);
    CarryingAppend(w.l.claimed, m, id);
    var d, h, c := Carrying(w.l.delivered, id), Carrying(w.s.held, id), Carrying(w.l.claimed, id);
    assert d + (h + [m]) == d + h + [m];
    assert h + [] == h && c + [] == c;
  }

  lemma {:induction false} PushInStep(w: World, k: nat, id: Id)
    requires InStep(w, id) && k < |w.s.held| && (For(w.s.held[k], id) ==> !Jumps(w.s, k))
    ensures InStep(Step(w, Push(k)), id)
  {
    hide Carrying, Without;
    var m := w.s.held[k];
    CarryingAppend(w.l.delivered, m, id);
    CarryingWithout(w.s.held, k, id);
    var d := Carrying(w.l.delivered, id);
    assert d + [] == d;
    assert d + [m] + Carrying(Without(w.s.held, k), id) == d + ([m] + Carrying(Without(w.s.held, k), id));
  }

  lemma {:induction false} StepInStep(w: World, a: Action, id: Id)
    requires Inv(w) && InStep(w, id) && Enabled(w.s, a)
    requires a.Push? && For(w.s.held[a.k], id) ==> !Jumps(w.s, a.k)
    ensures InStep(Step(w, a), id)
  {
    hide Carrying, Ordered, Conserved, Jumps;
    match a
    case LookUp(msg) => LookUpInStep(w, msg, id);
    case Push(k) => PushInStep(w, k, id);
    case Open(other) =>
      if other == id {
        CarryingNone(w.s.held, id);
        CarryingNone(w.l.claimed, id);
      }
    case Register(_) =>
    case Ask(_) =>
    case Return(_) =>
    case Receive(_) =>
    case DropGuard(_) =>
    case DropReceiver(_) =>
  }

  lemma {:induction false} JumpOvertakes(w: World, k: nat, id: Id)
    requires Ordered(w) && k < |w.s.held| && For(w.s.held[k], id) && Jumps(w.s, k)
    ensures Overtaken(Step(w, Push(k)), id)
  {
    hide Carrying;
    var t, m := Step(w, Push(k)), w.s.held[k];
    var j :| 0 <= j < k && For(w.s.held[j], id);
    var early, before := w.s.held[j], Carrying(w.l.delivered, id);
    assert early in w.s.held;
    CarryingAppend(w.l.delivered, m, id);
    CarryingMember(w.l.claimed, id, early);
    CarryingMember(w.l.delivered, id, early);
    assert Carrying(t.l.delivered, id)[..|before|] == before;
  }

  /** What was overtaken stays overtaken. */
  lemma {:induction false} OvertakenStays(w: World, a: Action, id: Id)
    requires Overtaken(w, id) && Enabled(w.s, a)
    ensures Overtaken(Step(w, a), id)
  {
    hide Carrying;
    var t := Step(w, a);
    var d, c := Carrying(w.l.delivered, id), Carrying(w.l.claimed, id);
    var i, m :| 0 <= i < |d| && m in c && m.n < d[i].n && m !in d[..i];
    if a.Push? {
      CarryingAppend(w.l.delivered, w.s.held[a.k], id);
    } else if a.LookUp? {
      CarryingAppend(w.l.claimed, Fed(|w.l.fed|, a.msg), id);
    }
    var later := Carrying(t.l.delivered, id);
    assert later[i] == d[i] && later[..i] == d[..i];
  }

  lemma {:induction false} PrefixIsInOrder(d: seq<Fed>, c: seq<Fed>)
    requires Increasing(c) && d <= c
    ensures forall i, m :: 0 <= i < |d| && m in c && m.n < d[i].n ==> m in d[..i]
  {
    forall i, m | 0 <= i < |d| && m in c && m.n < d[i].n ensures m in d[..i] {
      var j :| 0 <= j < |c| && c[j] == m;
      assert c[i] == d[i];
      assert d[..i][j] == c[j];
    }
  }

  lemma {:induction false} OvertakenIsNoPrefix(w: World, id: Id)
    requires Ordered(w) && Overtaken(w, id)
    ensures !(Carrying(w.l.delivered, id) <= Carrying(w.l.claimed, id))
  {
    hide Carrying;
    var d, c := Carrying(w.l.delivered, id), Carrying(w.l.claimed, id);
    CarryingIncreasing(w.l.claimed, id);
    if d <= c {
      PrefixIsInOrder(d, c);
    }
  }

  lemma {:induction false} OvertakenRun(w: World, acts: seq<Action>, id: Id)
    requires Inv(w) && EnabledAll(w, acts) && Overtaken(w, id)
    ensures var t := Run(w, acts); !(Carrying(t.l.delivered, id) <= Carrying(t.l.claimed, id))
    decreases |acts|
  {
    hide Carrying, Overtaken, Roles, Conserved, Delivery, Ordered;
    if acts == [] {
      OvertakenIsNoPrefix(w, id);
    } else {
      StepInv(w, acts[0]);
      OvertakenStays(w, acts[0], id);
      OvertakenRun(Step(w, acts[0]), acts[1..], id);
    }
  }

  lemma {:induction false} OrderlyRun(w: World, acts: seq<Action>, id: Id)
    requires Inv(w) && EnabledAll(w, acts) && InStep(w, id)
    ensures var t := Run(w, acts);
            Orderly(w, acts, id) <==> Carrying(t.l.delivered, id) <= Carrying(t.l.claimed, id)
    decreases |acts|
  {
    hide Carrying, InStep, Overtaken, Jumps, Roles, Conserved, Delivery, Ordered;
    if acts == [] {
      InStepIsPrefix(w, id);
    } else {
      StepInv(w, acts[0]);
      if acts[0].Push? && For(w.s.held[acts[0].k], id) && Jumps(w.s, acts[0].k) {
        JumpOvertakes(w, acts[0].k, id);
        OvertakenRun(Step(w, acts[0]), acts[1..], id);
      } else {
        StepInStep(w, acts[0], id);
        OrderlyRun(Step(w, acts[0]), acts[1..], id);
      }
    }
  }

  lemma {:induction false} InStepIsPrefix(w: World, id: Id)
    requires InStep(w, id)
    ensures Carrying(w.l.delivered, id) <= Carrying(w.l.claimed, id)
  {
  }

  /** What an operation has received, has waiting or has left unread is a prefix of its replies in the order
      in which they were fed, if and only if no reply was ever put into its queue ahead of an earlier one. */
  lemma {:induction false} FeedOrder(acts: seq<Action>, id: Id)
    requires EnabledAll(START, acts)
    ensures var w := Run(START, acts);
            Orderly(START, acts, id) <==>
            Of(w.l.received, id) + Of(w.s.queues, id) + Of(w.l.unread, id) <= Carrying(w.l.claimed, id)
  {
    hide Carrying, Orderly, Conserved, Ordered;
    assert Inv(START) && InStep(START, id) by {
      CarryingNone([], id);
      Correlation([]);
    }
    Correlation(acts);
    OrderlyRun(START, acts, id);
  }

  /** No reply of the operation passes an earlier one, whether its queue is open or closed. */
  predicate InTurn(w: World, acts: seq<Action>, id: Id)
    requires EnabledAll(w, acts)
    decreases |acts|
  {
    acts != [] ==>
      && (acts[0].Push? && For(w.s.held[acts[0].k], id) ==>
            forall j :: 0 <= j < acts[0].k ==> !For(w.s.held[j], id))
      && InTurn(Step(w, acts[0]), acts[1..], id)
  }

  /** The replies of an operation: delivered, then lost, then held. */
  function Line(w: World, id: Id): seq<Fed> {
    Carrying(w.l.delivered, id) + Carrying(w.l.lost, id) + Carrying(w.s.held, id)
  }

  /** A push in lookup order moves a reply from the held part of the line to its neighbour. */
  lemma {:induction false} PushLine(w: World, k: nat, id: Id)
    requires Roles(w.s, w.l) && k < |w.s.held|
    requires For(w.s.held[k], id) ==> forall j :: 0 <= j < k ==> !For(w.s.held[j], id)
    ensures Line(Step(w, Push(k)), id) == Line(w, id)
  {
    hide Carrying, Without;
    var d, x := Carrying(w.l.delivered, id), Carrying(w.l.lost, id);
    var m, rest := w.s.held[k], Carrying(Without(w.s.held, k), id);
    CarryingAppend(w.l.delivered, m, id);
    CarryingAppend(w.l.lost, m, id);
    CarryingWithout(w.s.held, k, id);
    if StillOpen(w.s, m) && For(m, id) {
      CarryingNone(w.l.lost, id);
      assert d + [m] + [] + rest == d + [] + ([m] + rest);
    } else if For(m, id) {
      assert d + (x + [m]) + rest == d + x + ([m] + rest);
    } else {
      assert d + [] == d && x + [] == x;
    }
  }

  /** A lookup adds the reply to the end of the line if it is claimed. */
  lemma {:induction false} LookUpLine(w: World, msg: Msg, id: Id)
    requires Line(w, id) == Carrying(w.l.claimed, id)
    ensures Line(Step(w, LookUp(msg)), id) == Carrying(Step(w, LookUp(msg)).l.claimed, id)
  {
    hide Carrying;
    var d, x, h := Carrying(w.l.delivered, id), Carrying(w.l.lost, id), Carrying(w.s.held, id);
    var m := Fed(|w.l.fed|, msg);
    CarryingAppend(w.l.claimed, m, id);
    CarryingAppend(w.s.held, m, id);
    assert d + x + (h + [m]) == d + x + h + [m];
    assert h + [] == h && d + x + h + [] == d + x + h;
  }

  lemma {:induction false} LineRun(w: World, acts: seq<Action>, id: Id)
    requires Inv(w) && EnabledAll(w, acts) && InTurn(w, acts, id) && Line(w, id) == Carrying(w.l.claimed, id)
    ensures Line(Run(w, acts), id) == Carrying(Run(w, acts).l.claimed, id)
    decreases |acts|
  {
    hide Line, Carrying, Roles, Conserved, Delivery, Ordered;
    if acts != [] {
      var a, t := acts[0], Step(w, acts[0]);
      StepInv(w, a);
      if a.Push? {
        PushLine(w, a.k, id);
      } else if a.LookUp? {
        LookUpLine(w, a.msg, id);
      } else {
        SameLine(w, t, id);
      }
      LineRun(t, acts[1..], id);
    }
  }

  lemma {:induction false} SameLine(w: World, t: World, id: Id)
    requires t.l.delivered == w.l.delivered && t.l.lost == w.l.lost && t.s.held == w.s.held
    ensures Line(t, id) == Line(w, id)
  {
  }

  /** When replies of an operation are used in the order of their lookup, those delivered, then those that
      found the channel closed, then those still held are all its claimed replies in feed order. */
  lemma {:induction false} LookupOrderIsKept(acts: seq<Action>, id: Id)
    requires EnabledAll(START, acts) && InTurn(START, acts, id)
    ensures Line(Run(START, acts), id) == Carrying(Run(START, acts).l.claimed, id)
  {
    Correlation([]);
    CarryingNone([], id);
    LineRun(START, acts, id);
  }

  /** Every feed is finished before the next one starts. */
  predicate OneAtATime(w: World, acts: seq<Action>)
    requires EnabledAll(w, acts)
    decreases |acts|
  {
    acts != [] ==>
      (acts[0].LookUp? ==> w.s.held == []) && OneAtATime(Step(w, acts[0]), acts[1..])
  }

  /** A single feeder keeps the lookup order for every operation, and so no reply jumps. */
  lemma {:induction false} SingleFeeder(w: World, acts: seq<Action>, id: Id)
    requires EnabledAll(w, acts) && OneAtATime(w, acts) && |w.s.held| <= 1
    ensures InTurn(w, acts, id) && Orderly(w, acts, id)
    decreases |acts|
  {
    if acts != [] {
      SingleFeeder(Step(w, acts[0]), acts[1..], id);
    }
  }

  // ----- replies nobody gets ------------------------------------------------------------------------------------

  /** A receiver stays until its operation drops it, and never comes back. */
  lemma {:induction false} QueueUntilDrop(w: World, acts: seq<Action>, id: Id)
    requires EnabledAll(w, acts) && id in w.s.ops
    ensures id in Run(w, acts).s.ops
    ensures id in Run(w, acts).s.queues <==> id in w.s.queues && DropReceiver(id) !in acts
    decreases |acts|
  {
    hide Without;
    if acts != [] {
      assert acts == [acts[0]] + acts[1..];
      QueueUntilDrop(Step(w, acts[0]), acts[1..], id);
    }
  }

  /** A claimed reply is lost if and only if its operation drops its receiver between the lookup and the
      use of the sender; otherwise it goes to the end of its operation's queue. */
  lemma {:induction false} LostExactly(w: World, msg: Msg, acts: seq<Action>, k: nat)
    requires Inv(w) && Claims(w.s, msg) && EnabledAll(Step(w, LookUp(msg)), acts)
    requires var v := Run(Step(w, LookUp(msg)), acts); k < |v.s.held| && v.s.held[k] == Fed(|w.l.fed|, msg)
    ensures var v := Run(Step(w, LookUp(msg)), acts);
            var t, m := Step(v, Push(k)), v.s.held[k];
            if DropReceiver(msg.id) in acts then t.l.lost == v.l.lost + [m] && t.s.queues == v.s.queues
            else t.l.lost == v.l.lost && t.s.queues == v.s.queues[msg.id := Of(v.s.queues, msg.id) + [m]]
  {
    hide Run, Without, Conserved, Delivery, Ordered;
    QueueUntilDrop(Step(w, LookUp(msg)), acts, msg.id);
  }

  /** Dropping a receiver discards exactly what waits in its queue: nobody is told, and nothing goes back. */
  lemma {:induction false} DroppedUnread(w: World, id: Id)
    requires Inv(w) && Enabled(w.s, DropReceiver(id))
    ensures var t := Step(w, DropReceiver(id));
            && Of(t.l.received, id) + Of(t.l.unread, id) == Carrying(t.l.delivered, id)
            && Of(t.l.unread, id) == w.s.queues[id]
            && t.l.back == w.l.back && t.l.lost == w.l.lost
  {
    hide Carrying, Roles, Conserved, Ordered;
    DropDelivery(w, id);
    assert Of(Step(w, DropReceiver(id)).s.queues, id) == [];
    assert Of(w.l.received, id) + [] + w.s.queues[id] == Of(w.l.received, id) + w.s.queues[id];
  }

  /** A reply whose sender is used as soon as it is looked up is never lost: it goes to the end of its
      operation's queue when the operation is registered, and back to the caller unchanged otherwise. */
  lemma {:induction false} PromptFeed(w: World, msg: Msg)
    requires Inv(w) && w.s.held == []
    ensures var t, m := Step(w, LookUp(msg)), Fed(|w.l.fed|, msg);
            if msg.Reply? && msg.id in w.s.ops && InFlight(w.s.ops[msg.id]) then
              var u := Step(t, Push(0));
              && u.l.lost == w.l.lost && u.l.back == w.l.back && u.s.held == []
              && u.s.queues == w.s.queues[msg.id := Of(w.s.queues, msg.id) + [m]]
            else t.s == w.s && t.l.back == w.l.back + [m]
  {
    hide Carrying, Conserved, Ordered;
  }

  // ----- three short runs -----------------------------------------------------------------------------------------

  predicate Goes(w: World, a: Action, t: World) {
    Enabled(w.s, a) && Step(w, a) == t
  }

  /** The worlds of a run, one after the other. */
  lemma {:induction false} Chain(worlds: seq<World>, acts: seq<Action>)
    requires |worlds| == |acts| + 1
    requires forall i :: 0 <= i < |acts| ==> Goes(worlds[i], acts[i], worlds[i + 1])
    ensures EnabledAll(worlds[0], acts) && Run(worlds[0], acts) == worlds[|acts|]
    decreases |acts|
  {
    hide Enabled, Step;
    if acts != [] {
      assert Goes(worlds[0], acts[0], worlds[0 + 1]);
      var later, rest := worlds[1..], acts[1..];
      forall i | 0 <= i < |rest| ensures Goes(later[i], rest[i], later[i + 1]) {
        assert Goes(worlds[i + 1], acts[i + 1], worlds[i + 1 + 1]);
      }
      Chain(later, rest);
    }
  }

  /** A world with one operation. */
  function Sole(id: Id, phase: Phase, queue: seq<Fed>, held: seq<Fed>, l: Log): (w: World)
    ensures w.l == l
    ensures !phase.Closed? ==> w.s.queues == map[id := queue]
  {
    World(State(if InFlight(phase) then {id} else {}, map[id := phase],
                if phase.Closed? then map[] else map[id := queue], held), l)
  }

  /** What is logged once the operation exists. */
  function SoleLog(id: Id, fed: seq<Fed>, delivered: seq<Fed>, lost: seq<Fed>, unread: seq<Fed>): (l: Log)
    ensures l == Log(fed, fed, [], delivered, lost, map[id := []], map[id := unread])
  {
    Log(fed, fed, [], delivered, lost, map[id := []], map[id := unread])
  }

  lemma {:induction false} SoleAsks(id: Id)
    ensures var l := SoleLog(id, [], [], [], []);
            && Goes(START, Open(id), Sole(id, Opened, [], [], l))
            && Goes(Sole(id, Opened, [], [], l), Register(id), Sole(id, Registered, [], [], l))
            && Goes(Sole(id, Registered, [], [], l), Ask(id), Sole(id, Asked, [], [], l))
  {
    assert {} + {id} == {id};
    assert map[id := Opened][id := Registered] == map[id := Registered];
    assert map[id := Registered][id := Asked] == map[id := Asked];
  }

  lemma {:induction false} SoleEnds(id: Id, q: seq<Fed>, held: seq<Fed>, l: Log, t: Log)
    requires id in l.unread && t == l.(unread := l.unread[id := q])
    ensures Goes(Sole(id, Asked, q, held, l), Return(id), Sole(id, Returned, q, held, l))
    ensures Goes(Sole(id, Returned, q, held, l), DropGuard(id), Sole(id, Unguarded, q, held, l))
    ensures Goes(Sole(id, Unguarded, q, held, l), DropReceiver(id), Sole(id, Closed, q, held, t))
  {
    assert {id} - {id} == {};
    assert map[id := Asked][id := Returned] == map[id := Returned];
    assert map[id := Returned][id := Unguarded] == map[id := Unguarded];
    assert map[id := Unguarded][id := Closed] == map[id := Closed];
    assert map[id := q] - {id} == map[];
  }

  lemma {:induction false} SoleLookUp(id: Id, body: string, q: seq<Fed>, held: seq<Fed>, fed: seq<Fed>,
                                      delivered: seq<Fed>)
    ensures var m := Fed(|fed|, Reply(id, body));
            Goes(Sole(id, Asked, q, held, SoleLog(id, fed, delivered, [], [])), LookUp(Reply(id, body)),
                 Sole(id, Asked, q, held + [m], SoleLog(id, fed + [m], delivered, [], [])))
  {
  }

  /** The push of the last held reply. */
  lemma {:induction false} SolePush(id: Id, m: Fed, q: seq<Fed>, held: seq<Fed>, fed: seq<Fed>, delivered: seq<Fed>)
    requires For(m, id)
    ensures Goes(Sole(id, Asked, q, held + [m], SoleLog(id, fed, delivered, [], [])), Push(|held|),
                 Sole(id, Asked, q + [m], held, SoleLog(id, fed, delivered + [m], [], [])))
  {
    assert Without(held + [m], |held|) == held;
    assert map[id := q][id := q + [m]] == map[id := q + [m]];
  }

  lemma {:induction false} SolePushClosed(id: Id, m: Fed, fed: seq<Fed>)
    requires For(m, id)
    ensures Goes(Sole(id, Closed, [], [m], SoleLog(id, fed, [], [], [])), Push(0),
                 Sole(id, Closed, [], [], SoleLog(id, fed, [], [m], [])))
  {
    assert Without([m], 0) == [];
  }

  /** Two overlapping feeds: the replies are fed in one order and received in the other. */
  lemma {:induction false} OverlappingFeedsReorder(id: Id, x: string, y: string)
    ensures var m, n := Reply(id, x), Reply(id, y);
            var acts := [Open(id), Register(id), Ask(id), LookUp(m), LookUp(n), Push(1), Push(0)];
            && EnabledAll(START, acts)
            && Run(START, acts).l.claimed == [Fed(0, m), Fed(1, n)]
            && Run(START, acts).s.queues == map[id := [Fed(1, n), Fed(0, m)]]
  {
    hide Goes, EnabledAll, Run, Sole, SoleLog;
    var m, n := Reply(id, x), Reply(id, y);
    var f, g := Fed(0, m), Fed(1, n);
    assert [] + [f] == [f] && [f] + [g] == [f, g] && [] + [g] == [g] && [g] + [f] == [g, f];
    SoleAsks(id);
    SoleLookUp(id, x, [], [], [], []);
    SoleLookUp(id, y, [], [f], [f], []);
    SolePush(id, g, [], [f], [f, g], []);
    SolePush(id, f, [g], [], [f, g], [g]);
    var none := SoleLog(id, [], [], [], []);
    var worlds := [START, Sole(id, Opened, [], [], none), Sole(id, Registered, [], [], none),
                   Sole(id, Asked, [], [], none),
                   Sole(id, Asked, [], [f], SoleLog(id, [f], [], [], [])),
                   Sole(id, Asked, [], [f, g], SoleLog(id, [f, g], [], [], [])),
                   Sole(id, Asked, [g], [f], SoleLog(id, [f, g], [g], [], [])),
                   Sole(id, Asked, [g, f], [], SoleLog(id, [f, g], [g, f], [], []))];
    Chain(worlds, [Open(id), Register(id), Ask(id), LookUp(m), LookUp(n), Push(1), Push(0)]);
  }

  /** An operation that ends between the lookup and the push: nobody gets the reply, not even the caller. */
  lemma {:induction false} ReplyCanBeLost(id: Id, body: string)
    ensures var m := Reply(id, body);
            var acts := [Open(id), Register(id), Ask(id), LookUp(m), Return(id), DropGuard(id), DropReceiver(id),
                         Push(0)];
            && EnabledAll(START, acts)
            && Run(START, acts).l.lost == [Fed(0, m)] && Run(START, acts).l.back == []
  {
    hide Goes, EnabledAll, Run, Sole, SoleLog;
    var m := Reply(id, body);
    var f := Fed(0, m);
    assert [] + [f] == [f];
    SoleAsks(id);
    SoleLookUp(id, body, [], [], [], []);
    SolePushClosed(id, f, [f]);
    var none, one := SoleLog(id, [], [], [], []), SoleLog(id, [f], [], [], []);
    assert one.unread[id := []] == one.unread;
    SoleEnds(id, [], [f], one, one);
    var worlds := [START, Sole(id, Opened, [], [], none), Sole(id, Registered, [], [], none),
                   Sole(id, Asked, [], [], none), Sole(id, Asked, [], [f], one), Sole(id, Returned, [], [f], one),
                   Sole(id, Unguarded, [], [f], one), Sole(id, Closed, [], [f], one),
                   Sole(id, Closed, [], [], SoleLog(id, [f], [], [f], []))];
    Chain(worlds, [Open(id), Register(id), Ask(id), LookUp(m), Return(id), DropGuard(id), DropReceiver(id), Push(0)]);
  }

  /** A reply that waits when its operation gives up: it reached its queue and nobody reads it. */
  lemma {:induction false} ReplyCanStayUnread(id: Id, body: string)
    ensures var m := Reply(id, body);
            var acts := [Open(id), Register(id), Ask(id), LookUp(m), Push(0), Return(id), DropGuard(id),
                         DropReceiver(id)];
            && EnabledAll(START, acts)
            && Run(START, acts).l == SoleLog(id, [Fed(0, m)], [Fed(0, m)], [], [Fed(0, m)])
  {
    hide Goes, EnabledAll, Run, Sole, SoleLog;
    var m := Reply(id, body);
    var f := Fed(0, m);
    assert [] + [f] == [f];
    SoleAsks(id);
    SoleLookUp(id, body, [], [], [], []);
    SolePush(id, f, [], [], [f], []);
    var none, one := SoleLog(id, [], [], [], []), SoleLog(id, [f], [f], [], []);
    assert one.unread[id := [f]] == map[id := [f]];
    SoleEnds(id, [f], [], one, SoleLog(id, [f], [f], [], [f]));
    var worlds := [START, Sole(id, Opened, [], [], none), Sole(id, Registered, [], [], none),
                   Sole(id, Asked, [], [], none), Sole(id, Asked, [], [f], SoleLog(id, [f], [], [], [])),
                   Sole(id, Asked, [f], [], one), Sole(id, Returned, [f], [], one),
                   Sole(id, Unguarded, [f], [], one),
                   Sole(id, Closed, [f], [], SoleLog(id, [f], [f], [], [f]))];
    Chain(worlds, [Open(id), Register(id), Ask(id), LookUp(m), Push(0), Return(id), DropGuard(id), DropReceiver(id)]);
  }

  /** The pending map and the receivers, as one thread at a time uses them. */
  class PendingRequests {
    var registered: set<Id>
    var queues: map<Id, seq<Msg>>

    ghost predicate Valid()
      reads this
    {
      registered <= queues.Keys
    }

    constructor ()
      ensures Valid() && registered == {} && queues == map[]
    {
      registered, queues := {}, map[];
    }

    method Begin(id: Id)
      requires Valid() && id !in queues
      modifies this
      ensures Valid() && registered == old(registered) + {id} && queues == old(queues)[id := []]
    {
      queues := queues[id := []];
      registered := registered + {id};
    }

    /** The message itself when nobody waits for it. */
    method FeedResponse(msg: Msg) returns (unclaimed: Option<Msg>)
      requires Valid()
      modifies this`queues
      ensures Valid()
      ensures unclaimed == if msg.Reply? && msg.id in registered then None else Some(msg)
      ensures queues == if unclaimed.Some? then old(queues)
                        else old(queues)[msg.id := old(queues)[msg.id] + [msg]]
    {
      if msg.Other? || msg.id !in registered {
        return Some(msg);
      }
      queues := queues[msg.id := queues[msg.id] + [msg]];
      unclaimed := None;
    }

    method Next(id: Id) returns (msg: Msg)
      requires Valid() && id in queues && queues[id] != []
      modifies this`queues
      ensures Valid() && id in queues && old(queues)[id] == [msg] + queues[id]
      ensures queues == old(queues)[id := queues[id]]
    {
      msg := queues[id][0];
      queues := queues[id := queues[id][1..]];
    }

    /** Dropping the guard, then the receiver. */
    method End(id: Id)
      requires Valid()
      modifies this
      ensures Valid() && registered == old(registered) - {id} && queues == old(queues) - {id}
    {
      registered := registered - {id};
      queues := queues - {id};
    }
  }
}
