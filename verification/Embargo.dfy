/** Calls through a promise that turns out to be hosted here, as in capnp-rpc/src/rpc.rs
    (`PromiseClient::resolve`, `handle_disembargo`) and capnp-rpc/src/queued.rs. The caller sends its calls to
    the peer, which holds them until the promise settles and then reflects them back. When the caller learns
    of it, it holds further calls under an embargo until a `Disembargo` has made the round trip. There are any
    number of promises, each with a capability of its own, and embargo ids are used again once free. */
module Embargo {
  import opened IdTable

  /** A call, known by a number. */
  type Call = nat

  /** What a promise client leads to: the peer, a queue behind an embargo, a queue whose embargo has just been
      lifted, or the capability itself. */
  datatype Phase = Unresolved | Embargoed(id: nat) | Lifting | Direct

  /** A promise client. `called`: it has been called or described to the peer, so an embargo is needed.
      `issued` and `delivered` are what has been called and what has reached the capability, in order. */
  datatype Client = Client(phase: Phase, called: bool, queue: seq<Call>, issued: seq<Call>, delivered: seq<Call>)

  /** The promise at the peer: calls are held, or reflected once it has settled. */
  datatype Host = Holding(held: seq<Call>) | Settled(announced: bool)

  datatype Out = CallOn(p: nat, call: Call) | Loop(p: nat, id: nat)

  datatype Back = Reflected(p: nat, call: Call) | Resolved(p: nat) | Echo(p: nat, id: nat)

  datatype Task = Task(p: nat, id: nat)

  datatype State = State(
    clients: seq<Client>,
    embargoes: Slots<nat>,
    hosts: seq<Host>,
    tasks: seq<Task>,
    out: seq<Out>,
    back: seq<Back>)

  datatype Event =
    | Promised
    | Issue(p: nat, call: Call)
    | Describe(p: nat)
    | TakeOut
    | TakeBack
    | Settle(p: nat, announce: bool)
    | Announce(p: nat)
    | RunTask(k: nat)
    | Lift(p: nat)

  // -------------------------------------------------------------------- steps

  predicate Known(s: State, p: nat) {
    p < |s.clients| && p < |s.hosts|
  }

  /** A message that its receiver takes without error: a `Disembargo` meets a promise that leads back, a
      promise is resolved once, an embargo id is known. */
  predicate OutAccepted(s: State, m: Out) {
    Known(s, m.p) && (m.Loop? ==> s.hosts[m.p].Settled?)
  }

  predicate BackAccepted(s: State, m: Back) {
    match m
    case Reflected(p, _) => Known(s, p)
    case Resolved(p) => Known(s, p) && s.clients[p].phase.Unresolved?
    case Echo(_, id) => Has(s.embargoes, id) && Known(s, s.embargoes[id].value)
  }

  predicate Enabled(s: State, event: Event) {
    match event
    case Promised => true
    case Issue(p, _) => Known(s, p)
    case Describe(p) => Known(s, p) && s.clients[p].phase.Unresolved?
    case TakeOut => s.out != [] && OutAccepted(s, s.out[0])
    case TakeBack => s.back != [] && BackAccepted(s, s.back[0])
    case Settle(p, _) => Known(s, p) && s.hosts[p].Holding?
    case Announce(p) => Known(s, p) && s.hosts[p] == Settled(false)
    case RunTask(k) => k < |s.tasks|
    case Lift(p) => Known(s, p) && s.clients[p].phase.Lifting?
  }

  function SetClient(s: State, p: nat, c: Client): State
    requires Known(s, p)
  {
    s.(clients := s.clients[p := c])
  }

  function SetHost(s: State, p: nat, h: Host): State
    requires Known(s, p)
  {
    s.(hosts := s.hosts[p := h])
  }

  /** A call through the promise client. */
  function DoIssue(s: State, p: nat, call: Call): State
    requires Known(s, p)
  {
    var c := s.clients[p].(issued := s.clients[p].issued + [call]);
    match c.phase
    case Unresolved => SetClient(s, p, c.(called := true)).(out := s.out + [CallOn(p, call)])
    case Direct => SetClient(s, p, c.(delivered := c.delivered + [call]))
    case _ => SetClient(s, p, c.(queue := c.queue + [call]))
  }

  /** The peer takes a message. */
  function DoTakeOut(s: State): State
    requires Enabled(s, TakeOut)
  {
    var rest := s.(out := s.out[1..]);
    match s.out[0]
    case CallOn(p, call) =>
      if s.hosts[p].Holding? then SetHost(rest, p, Holding(s.hosts[p].held + [call]))
      else rest.(back := s.back + [Reflected(p, call)])
    case Loop(p, id) => rest.(tasks := s.tasks + [Task(p, id)])
  }

  /** The caller takes a message. */
  function DoTakeBack(s: State): State
    requires Enabled(s, TakeBack)
  {
    var rest := s.(back := s.back[1..]);
    match s.back[0]
    case Reflected(p, call) =>
      SetClient(rest, p, s.clients[p].(delivered := s.clients[p].delivered + [call]))
    case Resolved(p) =>
      if s.clients[p].called then
        var id := NextId(s.embargoes);
        SetClient(rest, p, s.clients[p].(phase := Embargoed(id))).(
          embargoes := Put(s.embargoes, p), out := s.out + [Loop(p, id)])
      else SetClient(rest, p, s.clients[p].(phase := Direct))
    case Echo(_, id) =>
      var p := s.embargoes[id].value;
      SetClient(rest, p, s.clients[p].(phase := Lifting)).(embargoes := Without(s.embargoes, id))
  }

  function Reflect(p: nat, calls: seq<Call>): seq<Back> {
    if calls == [] then [] else [Reflected(p, calls[0])] + Reflect(p, calls[1..])
  }

  /** The promise settles and what was held goes back. A `Return` announces it first; a `Resolve` is a step of
      its own, later. */
  function DoSettle(s: State, p: nat, announce: bool): State
    requires Known(s, p) && s.hosts[p].Holding?
  {
    SetHost(s, p, Settled(announce)).(
      back := s.back + (if announce then [Resolved(p)] else []) + Reflect(p, s.hosts[p].held))
  }

  function Do(s: State, event: Event): State
    requires Enabled(s, event)
  {
    match event
    case Promised =>
      s.(clients := s.clients + [Client(Unresolved, false, [], [], [])], hosts := s.hosts + [Holding([])])
    case Issue(p, call) => DoIssue(s, p, call)
    case Describe(p) => SetClient(s, p, s.clients[p].(called := true))
    case TakeOut => DoTakeOut(s)
    case TakeBack => DoTakeBack(s)
    case Settle(p, announce) => DoSettle(s, p, announce)
    case Announce(p) => SetHost(s, p, Settled(true)).(back := s.back + [Resolved(p)])
    case RunTask(k) =>
      s.(tasks := s.tasks[..k] + s.tasks[k + 1..], back := s.back + [Echo(s.tasks[k].p, s.tasks[k].id)])
    case Lift(p) =>
      var c := s.clients[p];
      SetClient(s, p, c.(phase := Direct, queue := [], delivered := c.delivered + c.queue))
  }

  predicate Init(s: State) {
    s == State([], [], [], [], [], [])
  }

  predicate Takes(s: State, event: Event, t: State) {
    Enabled(s, event) && t == Do(s, event)
  }

  ghost predicate Step(s: State, t: State) {
    exists event: Event :: Takes(s, event, t)
  }

  ghost predicate Run(states: seq<State>) {
    && states != [] && Init(states[0])
    && forall i | 0 < i < |states| :: Step(states[i - 1], states[i])
  }

  // ------------------------------------------------------------ calls in flight

  function OutCalls(p: nat, m: Out): seq<Call> {
    if m.CallOn? && m.p == p then [m.call] else []
  }

  function InOut(p: nat, out: seq<Out>): seq<Call> {
    if out == [] then [] else OutCalls(p, out[0]) + InOut(p, out[1..])
  }

  /** The calls sent after the `Disembargo`, if it is there. */
  function AfterLoop(p: nat, id: nat, out: seq<Out>): seq<Call> {
    if out == [] then [] else if out[0] == Loop(p, id) then InOut(p, out[1..]) else AfterLoop(p, id, out[1..])
  }

  function BackCalls(p: nat, m: Back): seq<Call> {
    if m.Reflected? && m.p == p then [m.call] else []
  }

  function InBack(p: nat, back: seq<Back>): seq<Call> {
    if back == [] then [] else BackCalls(p, back[0]) + InBack(p, back[1..])
  }

  function AfterEcho(p: nat, id: nat, back: seq<Back>): seq<Call> {
    if back == [] then [] else if back[0] == Echo(p, id) then InBack(p, back[1..]) else AfterEcho(p, id, back[1..])
  }

  lemma {:induction false} OutSnoc(p: nat, id: nat, out: seq<Out>, m: Out)
    ensures InOut(p, out + [m]) == InOut(p, out) + OutCalls(p, m)
    ensures AfterLoop(p, id, out + [m]) == AfterLoop(p, id, out) + if Loop(p, id) in out then OutCalls(p, m) else []
  {
    if out == [] {
      assert (out + [m])[1..] == [];
    } else {
      assert (out + [m])[1..] == out[1..] + [m];
      OutSnoc(p, id, out[1..], m);
    }
  }

  lemma {:induction false} InBackAppend(p: nat, back: seq<Back>, more: seq<Back>)
    ensures InBack(p, back + more) == InBack(p, back) + InBack(p, more)
  {
    if back == [] {
      assert back + more == more;
    } else {
      assert (back + more)[1..] == back[1..] + more;
      InBackAppend(p, back[1..], more);
      assert (BackCalls(p, back[0]) + InBack(p, back[1..])) + InBack(p, more) == InBack(p, back + more);
    }
  }

  lemma {:induction false} AfterEchoAppend(p: nat, id: nat, back: seq<Back>, more: seq<Back>)
    ensures AfterEcho(p, id, back + more) ==
      if Echo(p, id) in back then AfterEcho(p, id, back) + InBack(p, more) else AfterEcho(p, id, more)
  {
    hide InBack;
    if back == [] {
      assert back + more == more;
    } else {
      assert (back + more)[1..] == back[1..] + more;
      if back[0] == Echo(p, id) { InBackAppend(p, back[1..], more); } else { AfterEchoAppend(p, id, back[1..], more); }
    }
  }

  lemma {:induction false} InReflect(p: nat, q: nat, calls: seq<Call>)
    ensures InBack(p, Reflect(q, calls)) == if p == q then calls else []
  {
    if calls == [] {
    } else {
      InReflect(p, q, calls[1..]);
      InBackAppend(p, [Reflected(q, calls[0])], Reflect(q, calls[1..]));
      assert InBack(p, [Reflected(q, calls[0])]) == if p == q then [calls[0]] else [];
      assert [calls[0]] + calls[1..] == calls;
    }
  }

  lemma {:induction false} OnlyReflected(q: nat, calls: seq<Call>, m: Back)
    requires m in Reflect(q, calls)
    ensures m.Reflected? && m.p == q
  {
    if m != Reflected(q, calls[0]) { OnlyReflected(q, calls[1..], m); }
  }

  lemma {:induction false} NoLoop(p: nat, id: nat, out: seq<Out>)
    requires Loop(p, id) !in out
    ensures AfterLoop(p, id, out) == []
  {
    if out == [] {
    } else {
      NoLoop(p, id, out[1..]);
    }
  }

  lemma {:induction false} NoEcho(p: nat, id: nat, back: seq<Back>)
    requires Echo(p, id) !in back
    ensures AfterEcho(p, id, back) == []
  {
    if back == [] {
    } else {
      NoEcho(p, id, back[1..]);
    }
  }

  // ------------------------------------------------------------- the invariant

  function HeldBy(h: Host): seq<Call> {
    if h.Holding? then h.held else []
  }

  /** Every call issued has been delivered or is somewhere on its way, and the places it can be in are in the
      order of issue. */
  predicate InLine(p: nat, c: Client, h: Host, out: seq<Out>, back: seq<Back>) {
    Line(c.issued, c.delivered, InBack(p, back), HeldBy(h), InOut(p, out), c.queue)
  }

  predicate Line(issued: seq<Call>, done: seq<Call>, back: seq<Call>, held: seq<Call>, out: seq<Call>,
                 queue: seq<Call>)
  {
    issued == done + (back + (held + (out + queue)))
  }

  /** Nothing is sent behind the `Disembargo`, nothing is left to send once it has arrived, and nothing is
      reflected behind its echo. */
  predicate Fenced(p: nat, id: nat, out: seq<Out>, back: seq<Back>) {
    && AfterLoop(p, id, out) == [] && (Loop(p, id) !in out ==> InOut(p, out) == [])
    && AfterEcho(p, id, back) == []
  }

  predicate PhaseOk(p: nat, c: Client, h: Host, out: seq<Out>, back: seq<Back>) {
    match c.phase
    case Unresolved => c.queue == [] && (c.called || c.issued == [])
    case Embargoed(id) => h == Settled(true) && Fenced(p, id, out, back)
    case Lifting => h == Settled(true) && InBack(p, back) == [] && InOut(p, out) == []
    case Direct => h == Settled(true) && InBack(p, back) == [] && InOut(p, out) == [] && c.queue == []
  }

  function One(b: bool): nat {
    if b then 1 else 0
  }

  /** The promise is announced once. */
  predicate AnnouncedOnce(p: nat, c: Client, h: Host, back: seq<Back>) {
    multiset(back)[Resolved(p)] == One(h == Settled(true) && c.phase.Unresolved?)
  }

  predicate ClientOk(p: nat, c: Client, h: Host, out: seq<Out>, back: seq<Back>) {
    InLine(p, c, h, out, back) && PhaseOk(p, c, h, out, back) && AnnouncedOnce(p, c, h, back)
  }

  predicate Awaits(s: State, p: nat, id: nat) {
    Known(s, p) && s.clients[p].phase == Embargoed(id)
  }

  function Tokens(s: State, p: nat, id: nat): nat {
    multiset(s.out)[Loop(p, id)] + multiset(s.tasks)[Task(p, id)] + multiset(s.back)[Echo(p, id)]
  }

  /** Each embargo has one `Disembargo`, out, waiting or on its way back. */
  ghost predicate TokensOk(s: State) {
    forall p: nat, id: nat :: Tokens(s, p, id) == One(Awaits(s, p, id))
  }

  ghost predicate TableOk(s: State) {
    && (forall id: nat | Has(s.embargoes, id) :: Awaits(s, s.embargoes[id].value, id))
    && (forall p: nat, id: nat | Awaits(s, p, id) :: Has(s.embargoes, id) && s.embargoes[id].value == p)
  }

  ghost predicate RangeOk(s: State) {
    && |s.clients| == |s.hosts|
    && (forall m | m in s.out :: m.p < |s.clients|)
    && (forall m | m in s.back :: m.p < |s.clients|)
    && (forall t | t in s.tasks :: t.p < |s.clients|)
  }

  predicate OkAt(s: State, p: nat) {
    Known(s, p) ==> ClientOk(p, s.clients[p], s.hosts[p], s.out, s.back)
  }

  ghost predicate ClientsOk(s: State) {
    forall p: nat :: OkAt(s, p)
  }

  ghost predicate Inv(s: State) {
    RangeOk(s) && TokensOk(s) && TableOk(s) && ClientsOk(s)
  }

  // ------------------------------------------------------- moving along the line

  lemma LineSend(i: seq<Call>, d: seq<Call>, b: seq<Call>, h: seq<Call>, o: seq<Call>, x: Call)
    requires Line(i, d, b, h, o, [])
    ensures Line(i + [x], d, b, h, o + [x], [])
  {
    assert d + (b + (h + ((o + [x]) + []))) == d + (b + (h + (o + []))) + [x];
  }

  lemma LineQueue(i: seq<Call>, d: seq<Call>, b: seq<Call>, h: seq<Call>, o: seq<Call>, q: seq<Call>, x: Call)
    requires Line(i, d, b, h, o, q)
    ensures Line(i + [x], d, b, h, o, q + [x])
  {
    assert d + (b + (h + (o + (q + [x])))) == d + (b + (h + (o + q))) + [x];
  }

  lemma LineHold(i: seq<Call>, d: seq<Call>, b: seq<Call>, h: seq<Call>, o: seq<Call>, q: seq<Call>, x: Call)
    requires Line(i, d, b, h, [x] + o, q)
    ensures Line(i, d, b, h + [x], o, q)
  {
    assert (h + [x]) + (o + q) == h + (([x] + o) + q);
  }

  lemma LineReflect(i: seq<Call>, d: seq<Call>, b: seq<Call>, o: seq<Call>, q: seq<Call>, x: Call)
    requires Line(i, d, b, [], [x] + o, q)
    ensures Line(i, d, b + [x], [], o, q)
  {
    assert (b + [x]) + ([] + (o + q)) == b + ([] + (([x] + o) + q));
  }

  lemma LineDeliver(i: seq<Call>, d: seq<Call>, b: seq<Call>, h: seq<Call>, o: seq<Call>, q: seq<Call>, x: Call)
    requires Line(i, d, [x] + b, h, o, q)
    ensures Line(i, d + [x], b, h, o, q)
  {
    assert (d + [x]) + (b + (h + (o + q))) == d + (([x] + b) + (h + (o + q)));
  }

  lemma LineSettle(i: seq<Call>, d: seq<Call>, b: seq<Call>, h: seq<Call>, o: seq<Call>, q: seq<Call>)
    requires Line(i, d, b, h, o, q)
    ensures Line(i, d, b + h, [], o, q)
  {
    assert (b + h) + ([] + (o + q)) == b + (h + (o + q));
  }

  lemma LineLift(i: seq<Call>, d: seq<Call>, q: seq<Call>)
    requires Line(i, d, [], [], [], q)
    ensures i == d + q && Line(i, d + q, [], [], [], [])
  {
    assert [] + ([] + ([] + q)) == q;
  }

  // ------------------------------------------- messages that are not about this promise

  function EmbargoOf(c: Client): nat {
    if c.phase.Embargoed? then c.phase.id else 0
  }

  lemma OtherOut(p: nat, c: Client, h: Host, out: seq<Out>, back: seq<Back>, m: Out)
    requires ClientOk(p, c, h, out, back) && m.p != p
    ensures ClientOk(p, c, h, out + [m], back)
  {
    hide InOut, AfterLoop, InBack, AfterEcho, Line;
    OutSnoc(p, EmbargoOf(c), out, m);
    assert InOut(p, out + [m]) == InOut(p, out);
  }

  lemma OutTail(p: nat, id: nat, out: seq<Out>)
    requires out != [] && out[0].p != p
    ensures InOut(p, out[1..]) == InOut(p, out) && AfterLoop(p, id, out[1..]) == AfterLoop(p, id, out)
    ensures Loop(p, id) in out[1..] <==> Loop(p, id) in out
  {
  }

  lemma OtherOutTaken(p: nat, c: Client, h: Host, out: seq<Out>, back: seq<Back>)
    requires out != [] && ClientOk(p, c, h, out, back) && out[0].p != p
    ensures ClientOk(p, c, h, out[1..], back)
  {
    hide InOut, AfterLoop, InBack, AfterEcho, Line;
    OutTail(p, EmbargoOf(c), out);
  }

  lemma BackSnoc(p: nat, id: nat, back: seq<Back>, m: Back)
    ensures InBack(p, back + [m]) == InBack(p, back) + BackCalls(p, m)
    ensures AfterEcho(p, id, back + [m]) == AfterEcho(p, id, back) + if Echo(p, id) in back then BackCalls(p, m) else []
  {
    InBackAppend(p, back, [m]);
    AfterEchoAppend(p, id, back, [m]);
    assert InBack(p, [m]) == BackCalls(p, m) && AfterEcho(p, id, [m]) == [];
    if Echo(p, id) !in back { NoEcho(p, id, back); }
  }

  lemma BackTail(p: nat, id: nat, back: seq<Back>)
    requires back != [] && back[0] != Echo(p, id)
    ensures InBack(p, back) == BackCalls(p, back[0]) + InBack(p, back[1..])
    ensures AfterEcho(p, id, back[1..]) == AfterEcho(p, id, back)
    ensures multiset(back)[Resolved(p)] == multiset(back[1..])[Resolved(p)] + One(back[0] == Resolved(p))
  {
    assert back == [back[0]] + back[1..];
  }

  lemma OtherBack(p: nat, c: Client, h: Host, out: seq<Out>, back: seq<Back>, m: Back)
    requires ClientOk(p, c, h, out, back) && m.p != p
    ensures ClientOk(p, c, h, out, back + [m])
  {
    hide InOut, AfterLoop, InBack, AfterEcho, Line;
    BackSnoc(p, EmbargoOf(c), back, m);
    assert InBack(p, back + [m]) == InBack(p, back);
  }

  lemma OtherBackTaken(p: nat, c: Client, h: Host, out: seq<Out>, back: seq<Back>)
    requires back != [] && ClientOk(p, c, h, out, back) && back[0].p != p
    ensures ClientOk(p, c, h, out, back[1..])
  {
    hide InOut, AfterLoop, InBack, AfterEcho, Line;
    BackTail(p, EmbargoOf(c), back);
    assert InBack(p, back) == InBack(p, back[1..]);
  }

  lemma {:induction false} OtherReflect(p: nat, c: Client, h: Host, out: seq<Out>, back: seq<Back>,
                                        q: nat, calls: seq<Call>)
    requires ClientOk(p, c, h, out, back) && p != q
    ensures ClientOk(p, c, h, out, back + Reflect(q, calls))
    decreases |calls|
  {
    hide ClientOk;
    if calls == [] {
      assert back + Reflect(q, calls) == back;
    } else {
      OtherBack(p, c, h, out, back, Reflected(q, calls[0]));
      OtherReflect(p, c, h, out, back + [Reflected(q, calls[0])], q, calls[1..]);
      assert back + Reflect(q, calls) == back + [Reflected(q, calls[0])] + Reflect(q, calls[1..]);
    }
  }

  // ----------------------------------------------- what happens to one promise

  /** A call is issued. */
  lemma IssueClient(p: nat, c: Client, h: Host, out: seq<Out>, back: seq<Back>, call: Call)
    requires ClientOk(p, c, h, out, back)
    ensures var d := c.(issued := c.issued + [call]);
      match c.phase
      case Unresolved => ClientOk(p, d.(called := true), h, out + [CallOn(p, call)], back)
      case Direct => ClientOk(p, d.(delivered := c.delivered + [call]), h, out, back)
      case _ => ClientOk(p, d.(queue := c.queue + [call]), h, out, back)
  {
    hide InOut, InBack, AfterEcho, AfterLoop, Line;
    OutSnoc(p, 0, out, CallOn(p, call));
    if c.phase.Unresolved? {
      LineSend(c.issued, c.delivered, InBack(p, back), HeldBy(h), InOut(p, out), call);
    } else {
      LineQueue(c.issued, c.delivered, InBack(p, back), HeldBy(h), InOut(p, out), c.queue, call);
      if c.phase.Direct? { LineLift(c.issued + [call], c.delivered, [call]); }
    }
  }

  /** The call at the front of the line is not behind the `Disembargo`. */
  lemma OutFront(p: nat, id: nat, out: seq<Out>)
    requires out != [] && out[0].CallOn? && out[0].p == p
    ensures InOut(p, out) == [out[0].call] + InOut(p, out[1..])
    ensures AfterLoop(p, id, out) == AfterLoop(p, id, out[1..]) && (Loop(p, id) in out <==> Loop(p, id) in out[1..])
  {
  }

  /** The peer takes a call, and holds it. */
  lemma HoldClient(p: nat, c: Client, h: Host, out: seq<Out>, back: seq<Back>)
    requires ClientOk(p, c, h, out, back) && h.Holding?
    requires out != [] && out[0].CallOn? && out[0].p == p
    ensures ClientOk(p, c, Holding(h.held + [out[0].call]), out[1..], back)
  {
    hide InBack, AfterEcho, InOut, AfterLoop, Line;
    OutFront(p, EmbargoOf(c), out);
    LineHold(c.issued, c.delivered, InBack(p, back), h.held, InOut(p, out[1..]), c.queue, out[0].call);
  }

  /** The peer takes a call, and reflects it. */
  lemma ReflectClient(p: nat, c: Client, h: Host, out: seq<Out>, back: seq<Back>)
    requires ClientOk(p, c, h, out, back) && h.Settled?
    requires out != [] && out[0].CallOn? && out[0].p == p
    requires c.phase.Embargoed? && Loop(p, c.phase.id) in out ==> Echo(p, c.phase.id) !in back
    ensures ClientOk(p, c, h, out[1..], back + [Reflected(p, out[0].call)])
  {
    hide InBack, AfterEcho, InOut, AfterLoop, Line;
    var call := out[0].call;
    BackSnoc(p, EmbargoOf(c), back, Reflected(p, call));
    OutFront(p, EmbargoOf(c), out);
    LineReflect(c.issued, c.delivered, InBack(p, back), InOut(p, out[1..]), c.queue, call);
  }

  /** The peer takes the `Disembargo`. */
  lemma LoopClient(p: nat, c: Client, h: Host, out: seq<Out>, back: seq<Back>)
    requires ClientOk(p, c, h, out, back) && c.phase.Embargoed?
    requires out != [] && out[0] == Loop(p, c.phase.id) && Loop(p, c.phase.id) !in out[1..]
    ensures ClientOk(p, c, h, out[1..], back)
  {
    hide InBack, AfterEcho, Line;
    NoLoop(p, c.phase.id, out[1..]);
    assert InOut(p, out) == InOut(p, out[1..]);
  }

  /** The caller gets a call back. */
  lemma DeliverClient(p: nat, c: Client, h: Host, out: seq<Out>, back: seq<Back>)
    requires ClientOk(p, c, h, out, back)
    requires back != [] && back[0].Reflected? && back[0].p == p
    ensures ClientOk(p, c.(delivered := c.delivered + [back[0].call]), h, out, back[1..])
  {
    hide InBack, InOut, AfterEcho, AfterLoop, Line;
    BackTail(p, EmbargoOf(c), back);
    LineDeliver(c.issued, c.delivered, InBack(p, back[1..]), HeldBy(h), InOut(p, out), c.queue, back[0].call);
  }

  /** The caller learns that the promise has settled. */
  lemma ResolveClient(p: nat, c: Client, h: Host, out: seq<Out>, back: seq<Back>, id: nat)
    requires ClientOk(p, c, h, out, back) && back != [] && back[0] == Resolved(p)
    requires Loop(p, id) !in out && Echo(p, id) !in back
    ensures c.phase.Unresolved? && h == Settled(true)
    ensures c.called ==> ClientOk(p, c.(phase := Embargoed(id)), h, out + [Loop(p, id)], back[1..])
    ensures !c.called ==> ClientOk(p, c.(phase := Direct), h, out, back[1..])
  {
    hide InBack, InOut, AfterEcho, AfterLoop, Line;
    BackTail(p, id, back);
    assert InBack(p, back) == InBack(p, back[1..]);
    OutSnoc(p, id, out, Loop(p, id));
    assert InOut(p, out + [Loop(p, id)]) == InOut(p, out);
    NoLoop(p, id, out);
    NoEcho(p, id, back[1..]);
    if !c.called { LineNone(c.delivered, InBack(p, back), HeldBy(h), InOut(p, out), c.queue); }
  }

  lemma LineNone(d: seq<Call>, b: seq<Call>, h: seq<Call>, o: seq<Call>, q: seq<Call>)
    requires Line([], d, b, h, o, q)
    ensures b == [] && o == [] && q == []
  {
    assert |b| <= |d + (b + (h + (o + q)))|;
  }

  /** The `Disembargo` comes back. */
  lemma EchoClient(p: nat, c: Client, h: Host, out: seq<Out>, back: seq<Back>)
    requires ClientOk(p, c, h, out, back) && c.phase.Embargoed?
    requires back != [] && back[0] == Echo(p, c.phase.id) && Loop(p, c.phase.id) !in out
    ensures ClientOk(p, c.(phase := Lifting), h, out, back[1..])
  {
    hide InOut, AfterLoop, Line;
    assert back == [back[0]] + back[1..];
    assert InBack(p, back) == InBack(p, back[1..]);
  }

  /** The promise settles. */
  lemma SettleClient(p: nat, c: Client, h: Host, out: seq<Out>, back: seq<Back>, announce: bool)
    requires ClientOk(p, c, h, out, back) && h.Holding?
    ensures ClientOk(p, c, Settled(announce), out, back + (if announce then [Resolved(p)] else []) + Reflect(p, h.held))
  {
    hide InBack, InOut, AfterEcho, AfterLoop, Line, Reflect;
    var first := if announce then [Resolved(p)] else [];
    assert InBack(p, back + first) == InBack(p, back) by {
      if announce { BackSnoc(p, 0, back, Resolved(p)); } else { assert back + first == back; }
    }
    InBackAppend(p, back + first, Reflect(p, h.held));
    InReflect(p, p, h.held);
    if Resolved(p) in Reflect(p, h.held) { OnlyReflected(p, h.held, Resolved(p)); }
    assert multiset(Reflect(p, h.held))[Resolved(p)] == 0;
    LineSettle(c.issued, c.delivered, InBack(p, back), h.held, InOut(p, out), c.queue);
  }

  lemma AnnounceClient(p: nat, c: Client, h: Host, out: seq<Out>, back: seq<Back>)
    requires ClientOk(p, c, h, out, back) && h == Settled(false)
    ensures ClientOk(p, c, Settled(true), out, back + [Resolved(p)])
  {
    hide InBack, InOut, AfterEcho, AfterLoop, Line;
    BackSnoc(p, 0, back, Resolved(p));
    assert InBack(p, back + [Resolved(p)]) == InBack(p, back);
  }

  /** The peer sends the `Disembargo` back. */
  lemma TaskClient(p: nat, c: Client, h: Host, out: seq<Out>, back: seq<Back>)
    requires ClientOk(p, c, h, out, back) && c.phase.Embargoed?
    ensures ClientOk(p, c, h, out, back + [Echo(p, c.phase.id)])
  {
    hide InBack, InOut, AfterEcho, AfterLoop, Line;
    BackSnoc(p, c.phase.id, back, Echo(p, c.phase.id));
    assert InBack(p, back + [Echo(p, c.phase.id)]) == InBack(p, back);
  }

  /** The queue behind the embargo is let through. */
  lemma LiftClient(p: nat, c: Client, h: Host, out: seq<Out>, back: seq<Back>)
    requires ClientOk(p, c, h, out, back) && c.phase.Lifting?
    ensures ClientOk(p, c.(phase := Direct, queue := [], delivered := c.delivered + c.queue), h, out, back)
  {
    hide InOut, InBack, Line;
    LineLift(c.issued, c.delivered, c.queue);
  }

  // ------------------------------------------------------------------ every step

  /** Counts of the tokens when one message is taken from the front of a queue, or one is added. */
  lemma FrontOut(out: seq<Out>)
    requires out != []
    ensures forall m: Out :: multiset(out)[m] == multiset(out[1..])[m] + One(m == out[0])
  {
    assert out == [out[0]] + out[1..];
  }

  lemma FrontBack(back: seq<Back>)
    requires back != []
    ensures forall m: Back :: multiset(back)[m] == multiset(back[1..])[m] + One(m == back[0])
  {
    assert back == [back[0]] + back[1..];
  }

  lemma PromisedInv(s: State)
    requires Inv(s)
    ensures Inv(Do(s, Promised))
  {
    hide ClientOk, Tokens, InOut, InBack, Line;
    var t, n := Do(s, Promised), |s.clients|;
    forall p: nat | Known(t, p) ensures OkAt(t, p) {
      if p == n { NewClient(s); } else { assert OkAt(s, p); }
    }
    forall p: nat, id: nat ensures Awaits(t, p, id) == Awaits(s, p, id) && Tokens(t, p, id) == Tokens(s, p, id) {
      SameTokens(s, t, p, id);
    }
  }

  lemma NewClient(s: State)
    requires RangeOk(s)
    ensures ClientOk(|s.clients|, Client(Unresolved, false, [], [], []), Holding([]), s.out, s.back)
  {
    NoneOut(s.out, |s.clients|);
    NoneBack(s.back, |s.clients|);
  }

  lemma SameTokens(s: State, t: State, p: nat, id: nat)
    requires s.out == t.out && s.tasks == t.tasks && s.back == t.back
    ensures Tokens(t, p, id) == Tokens(s, p, id)
  {
  }

  lemma {:induction false} NoneOut(out: seq<Out>, n: nat)
    requires forall m | m in out :: m.p < n
    ensures InOut(n, out) == []
  {
    if out == [] {
    } else {
      NoneOut(out[1..], n);
    }
  }

  lemma {:induction false} NoneBack(back: seq<Back>, n: nat)
    requires forall m | m in back :: m.p < n
    ensures InBack(n, back) == [] && multiset(back)[Resolved(n)] == 0
  {
    if back == [] {
    } else {
      NoneBack(back[1..], n);
      FrontBack(back);
    }
  }

  lemma IssueInv(s: State, p: nat, call: Call)
    requires Inv(s) && Known(s, p)
    ensures Inv(DoIssue(s, p, call))
  {
    hide ClientOk;
    var t := DoIssue(s, p, call);
    forall q: nat | Known(t, q) ensures OkAt(t, q) {
      assert OkAt(s, q);
      if q == p { IssueClient(p, s.clients[p], s.hosts[p], s.out, s.back, call); }
      else { OtherOut(q, s.clients[q], s.hosts[q], s.out, s.back, CallOn(p, call)); }
    }
    assert forall p: nat, id: nat :: Awaits(t, p, id) == Awaits(s, p, id);
    assert forall p: nat, id: nat :: Tokens(t, p, id) == Tokens(s, p, id);
  }

  /** A `Disembargo` on its way out is the only token of its embargo. */
  lemma LoopIsOnly(s: State, q: nat, id: nat)
    requires TokensOk(s) && Loop(q, id) in s.out
    ensures Awaits(s, q, id) && Echo(q, id) !in s.back
    ensures s.out[0] == Loop(q, id) ==> Loop(q, id) !in s.out[1..]
  {
    FrontOut(s.out);
    assert Tokens(s, q, id) == One(Awaits(s, q, id));
  }

  lemma TakeOutClient(s: State, q: nat)
    requires Inv(s) && Enabled(s, TakeOut) && Known(s, q)
    ensures OkAt(Do(s, TakeOut), q)
  {
    hide ClientOk, RangeOk, TableOk, TokensOk;
    var m, c, h := s.out[0], s.clients[q], s.hosts[q];
    assert OkAt(s, q);
    if m.p != q {
      OtherOutTaken(q, c, h, s.out, s.back);
      if m.CallOn? && s.hosts[m.p].Settled? { OtherBack(q, c, h, s.out[1..], s.back, Reflected(m.p, m.call)); }
    } else if m.CallOn? {
      if h.Holding? {
        HoldClient(q, c, h, s.out, s.back);
      } else {
        if c.phase.Embargoed? && Loop(q, c.phase.id) in s.out { LoopIsOnly(s, q, c.phase.id); }
        ReflectClient(q, c, h, s.out, s.back);
      }
    } else {
      LoopIsOnly(s, q, m.id);
      LoopClient(q, c, h, s.out, s.back);
    }
  }

  lemma TakeOutTokens(s: State, p: nat, id: nat)
    requires Enabled(s, TakeOut)
    ensures Tokens(Do(s, TakeOut), p, id) == Tokens(s, p, id) && Awaits(Do(s, TakeOut), p, id) == Awaits(s, p, id)
  {
    TakeOutMoves(s);
    hide Do, DoTakeOut, Enabled, OutAccepted;
    var t, m := Do(s, TakeOut), s.out[0];
    FrontOut(s.out);
    if m.Loop? {
      LastTask(s.tasks, Task(m.p, m.id));
    } else if s.hosts[m.p].Settled? {
      LastBack(s.back, Reflected(m.p, m.call));
    }
  }

  /** Where the message goes. */
  lemma TakeOutMoves(s: State)
    requires Enabled(s, TakeOut)
    ensures var t, m := Do(s, TakeOut), s.out[0];
      && |s.hosts| == |t.hosts| && s.clients == t.clients && t.out == s.out[1..] && Known(s, m.p)
      && t.tasks == (if m.Loop? then s.tasks + [Task(m.p, m.id)] else s.tasks)
      && t.back == (if m.CallOn? && s.hosts[m.p].Settled? then s.back + [Reflected(m.p, m.call)] else s.back)
  {
  }

  lemma LastTask(tasks: seq<Task>, task: Task)
    ensures forall t: Task :: multiset(tasks + [task])[t] == multiset(tasks)[t] + One(t == task)
  {
  }

  lemma LastBack(back: seq<Back>, last: Back)
    ensures forall m: Back :: multiset(back + [last])[m] == multiset(back)[m] + One(m == last)
  {
  }

  lemma TakeOutInv(s: State)
    requires Inv(s) && Enabled(s, TakeOut)
    ensures Inv(Do(s, TakeOut))
  {
    hide ClientOk, Tokens, Awaits;
    var t := Do(s, TakeOut);
    forall p: nat, id: nat ensures Tokens(t, p, id) == Tokens(s, p, id) && Awaits(t, p, id) == Awaits(s, p, id) {
      TakeOutTokens(s, p, id);
    }
    assert TokensOk(t) && TableOk(t);
    hide TokensOk, TableOk;
    forall q: nat | Known(t, q) ensures OkAt(t, q) {
      TakeOutClient(s, q);
    }
  }

  lemma TakeReflectedInv(s: State)
    requires Inv(s) && Enabled(s, TakeBack) && s.back[0].Reflected?
    ensures Inv(Do(s, TakeBack))
  {
    hide ClientOk;
    var t, m := Do(s, TakeBack), s.back[0];
    FrontBack(s.back);
    forall q: nat | Known(t, q) ensures OkAt(t, q) {
      assert OkAt(s, q);
      if q == m.p { DeliverClient(q, s.clients[q], s.hosts[q], s.out, s.back); }
      else { OtherBackTaken(q, s.clients[q], s.hosts[q], s.out, s.back); }
    }
    assert forall p: nat, id: nat :: Awaits(t, p, id) == Awaits(s, p, id);
    assert forall p: nat, id: nat :: Tokens(t, p, id) == Tokens(s, p, id);
  }

  lemma TakeResolvedClient(s: State, q: nat)
    requires Inv(s) && Enabled(s, TakeBack) && s.back[0].Resolved? && Known(s, q)
    ensures OkAt(Do(s, TakeBack), q)
  {
    hide ClientOk, NextId, RangeOk, TableOk;
    var p, id := s.back[0].p, NextId(s.embargoes);
    assert Tokens(s, p, id) == One(Awaits(s, p, id));
    assert OkAt(s, q);
    if q == p {
      ResolveClient(q, s.clients[q], s.hosts[q], s.out, s.back, id);
    } else {
      OtherBackTaken(q, s.clients[q], s.hosts[q], s.out, s.back);
      if s.clients[p].called { OtherOut(q, s.clients[q], s.hosts[q], s.out, s.back[1..], Loop(p, id)); }
    }
  }

  /** A client that learns of its promise starts to await its embargo, if it needs one. */
  predicate StartsEmbargo(s: State, q: nat, k: nat) {
    && s.back != [] && s.back[0].Resolved? && q == s.back[0].p
    && Known(s, q) && s.clients[q].called && k == NextId(s.embargoes)
  }

  lemma TakeResolvedAwaits(s: State, q: nat, k: nat)
    requires Enabled(s, TakeBack) && s.back[0].Resolved?
    ensures Awaits(Do(s, TakeBack), q, k) == (Awaits(s, q, k) || StartsEmbargo(s, q, k))
  {
    hide NextId, Put;
  }

  lemma TakeResolvedTokens(s: State, q: nat, k: nat)
    requires TokensOk(s) && TableOk(s) && Enabled(s, TakeBack) && s.back[0].Resolved?
    ensures Tokens(Do(s, TakeBack), q, k) == One(Awaits(Do(s, TakeBack), q, k))
  {
    hide NextId, Put;
    TakeResolvedAwaits(s, q, k);
    FrontBack(s.back);
    assert Tokens(s, q, k) == One(Awaits(s, q, k));
  }

  lemma TakeResolvedTable(s: State)
    requires TableOk(s) && Enabled(s, TakeBack) && s.back[0].Resolved?
    ensures TableOk(Do(s, TakeBack))
  {
    var t := Do(s, TakeBack);
    var put := s.clients[s.back[0].p].called;
    hide NextId;
    assert t.embargoes == if put then Put(s.embargoes, s.back[0].p) else s.embargoes;
    forall q: nat, k: nat ensures Awaits(t, q, k) == (Awaits(s, q, k) || StartsEmbargo(s, q, k)) {
      TakeResolvedAwaits(s, q, k);
    }
    hide Do, Awaits;
  }

  lemma TakeResolvedInv(s: State)
    requires Inv(s) && Enabled(s, TakeBack) && s.back[0].Resolved?
    ensures Inv(Do(s, TakeBack))
  {
    var t := Do(s, TakeBack);
    forall q: nat, k: nat ensures Tokens(t, q, k) == One(Awaits(t, q, k)) { TakeResolvedTokens(s, q, k); }
    TakeResolvedTable(s);
    assert RangeOk(t) by { hide NextId, Put, TableOk, TokensOk, ClientsOk; }
    hide OkAt, RangeOk, TableOk, Tokens, Awaits;
    forall q: nat ensures OkAt(Do(s, TakeBack), q) {
      if Known(s, q) { TakeResolvedClient(s, q); } else { NotThere(Do(s, TakeBack), q); }
    }
  }

  lemma NotThere(s: State, q: nat)
    requires !Known(s, q)
    ensures OkAt(s, q)
  {
  }

  lemma TakeEchoTokens(s: State)
    requires TokensOk(s) && TableOk(s) && Enabled(s, TakeBack) && s.back[0].Echo?
    ensures TokensOk(Do(s, TakeBack)) && TableOk(Do(s, TakeBack))
  {
    var t, p := Do(s, TakeBack), s.back[0].p;
    EchoIsAwaited(s);
    FrontBack(s.back);
    assert forall q: nat, k: nat :: Awaits(t, q, k) == (Awaits(s, q, k) && q != p);
    forall q: nat, k: nat ensures Tokens(t, q, k) == One(Awaits(t, q, k)) {
      assert Tokens(s, q, k) == One(Awaits(s, q, k));
    }
  }

  lemma TakeEchoInv(s: State)
    requires Inv(s) && Enabled(s, TakeBack) && s.back[0].Echo?
    ensures Inv(Do(s, TakeBack))
  {
    hide ClientOk, TokensOk, TableOk;
    var t, p := Do(s, TakeBack), s.back[0].p;
    EchoIsAwaited(s);
    TakeEchoTokens(s);
    forall q: nat | Known(t, q) ensures OkAt(t, q) {
      assert OkAt(s, q);
      if q == p { EchoClient(q, s.clients[q], s.hosts[q], s.out, s.back); }
      else { OtherBackTaken(q, s.clients[q], s.hosts[q], s.out, s.back); }
    }
  }

  /** The echo that comes in belongs to the embargo of its id, and the way out is clear. */
  lemma EchoIsAwaited(s: State)
    requires TokensOk(s) && TableOk(s) && s.back != [] && s.back[0].Echo?
    ensures var p, id := s.back[0].p, s.back[0].id;
      Awaits(s, p, id) && Has(s.embargoes, id) && s.embargoes[id].value == p && Loop(p, id) !in s.out
  {
    FrontBack(s.back);
    var p, id := s.back[0].p, s.back[0].id;
    assert Tokens(s, p, id) == One(Awaits(s, p, id));
  }

  lemma SettleInv(s: State, p: nat, announce: bool)
    requires Inv(s) && Enabled(s, Settle(p, announce))
    ensures Inv(DoSettle(s, p, announce))
  {
    hide ClientOk, Reflect;
    var t, held := DoSettle(s, p, announce), s.hosts[p].held;
    var first := if announce then [Resolved(p)] else [];
    forall q: nat | Known(t, q) ensures OkAt(t, q) {
      assert OkAt(s, q);
      if q == p {
        SettleClient(p, s.clients[p], s.hosts[p], s.out, s.back, announce);
      } else {
        if announce {
          OtherBack(q, s.clients[q], s.hosts[q], s.out, s.back, Resolved(p));
        } else {
          assert s.back + first == s.back;
        }
        OtherReflect(q, s.clients[q], s.hosts[q], s.out, s.back + first, p, held);
      }
    }
    forall m | m in Reflect(p, held) ensures m.Reflected? && m.p == p { OnlyReflected(p, held, m); }
    assert forall q: nat, id: nat :: Awaits(t, q, id) == Awaits(s, q, id);
    forall q: nat, id: nat ensures Tokens(t, q, id) == Tokens(s, q, id) {
      assert multiset(t.back) == multiset(s.back) + multiset(first) + multiset(Reflect(p, held));
    }
  }

  lemma AnnounceInv(s: State, p: nat)
    requires Inv(s) && Enabled(s, Announce(p))
    ensures Inv(Do(s, Announce(p)))
  {
    hide ClientOk;
    var t := Do(s, Announce(p));
    forall q: nat | Known(t, q) ensures OkAt(t, q) {
      assert OkAt(s, q);
      if q == p { AnnounceClient(p, s.clients[p], s.hosts[p], s.out, s.back); }
      else { OtherBack(q, s.clients[q], s.hosts[q], s.out, s.back, Resolved(p)); }
    }
    assert forall q: nat, id: nat :: Awaits(t, q, id) == Awaits(s, q, id);
    assert forall q: nat, id: nat :: Tokens(t, q, id) == Tokens(s, q, id);
  }

  lemma RunTaskTokens(s: State, k: nat)
    requires TokensOk(s) && TableOk(s) && k < |s.tasks|
    ensures TokensOk(Do(s, RunTask(k))) && TableOk(Do(s, RunTask(k)))
  {
    var t, p, id := Do(s, RunTask(k)), s.tasks[k].p, s.tasks[k].id;
    assert s.tasks == s.tasks[..k] + [s.tasks[k]] + s.tasks[k + 1..];
    assert multiset(s.tasks) == multiset(t.tasks) + multiset{Task(p, id)};
    assert multiset(t.back) == multiset(s.back) + multiset{Echo(p, id)};
    forall q: nat, i: nat ensures Tokens(t, q, i) == One(Awaits(t, q, i)) {
      assert Tokens(s, q, i) == One(Awaits(s, q, i));
    }
    assert forall q: nat, i: nat :: Awaits(t, q, i) == Awaits(s, q, i);
  }

  lemma RunTaskInv(s: State, k: nat)
    requires Inv(s) && k < |s.tasks|
    ensures Inv(Do(s, RunTask(k)))
  {
    hide ClientOk, TableOk;
    var t, p, id := Do(s, RunTask(k)), s.tasks[k].p, s.tasks[k].id;
    RunTaskTokens(s, k);
    assert Tokens(s, p, id) == One(Awaits(s, p, id));
    hide TokensOk;
    forall q: nat | Known(t, q) ensures OkAt(t, q) {
      assert OkAt(s, q);
      if q == p { TaskClient(p, s.clients[p], s.hosts[p], s.out, s.back); }
      else { OtherBack(q, s.clients[q], s.hosts[q], s.out, s.back, Echo(p, id)); }
    }
  }

  lemma LiftInv(s: State, p: nat)
    requires Inv(s) && Enabled(s, Lift(p))
    ensures Inv(Do(s, Lift(p)))
  {
    hide ClientOk;
    var t := Do(s, Lift(p));
    forall q: nat | Known(t, q) ensures OkAt(t, q) {
      assert OkAt(s, q);
      if q == p { LiftClient(p, s.clients[p], s.hosts[p], s.out, s.back); }
    }
    assert forall q: nat, id: nat :: Awaits(t, q, id) == Awaits(s, q, id) && Tokens(t, q, id) == Tokens(s, q, id);
  }

  lemma DescribeInv(s: State, p: nat)
    requires Inv(s) && Enabled(s, Describe(p))
    ensures Inv(Do(s, Describe(p)))
  {
    hide InOut, InBack, AfterEcho, AfterLoop, Line;
    var t := Do(s, Describe(p));
    forall q: nat | Known(t, q) ensures OkAt(t, q) {
      assert OkAt(s, q);
    }
    assert forall q: nat, id: nat :: Awaits(t, q, id) == Awaits(s, q, id) && Tokens(t, q, id) == Tokens(s, q, id);
  }

  lemma StepInv(s: State, event: Event)
    requires Inv(s) && Enabled(s, event)
    ensures Inv(Do(s, event))
  {
    hide Inv;
    match event
    case Promised => PromisedInv(s);
    case Issue(p, call) => IssueInv(s, p, call);
    case Describe(p) => DescribeInv(s, p);
    case TakeOut => TakeOutInv(s);
    case TakeBack =>
      match s.back[0] {
        case Reflected(_, _) => TakeReflectedInv(s);
        case Resolved(_) => TakeResolvedInv(s);
        case Echo(_, _) => TakeEchoInv(s);
      }
    case Settle(p, announce) => SettleInv(s, p, announce);
    case Announce(p) => AnnounceInv(s, p);
    case RunTask(k) => RunTaskInv(s, k);
    case Lift(p) => LiftInv(s, p);
  }

  lemma {:induction false} RunInv(states: seq<State>, k: nat)
    requires Run(states) && k < |states|
    ensures Inv(states[k])
  {
    if k == 0 {
    } else {
      hide Inv, Takes, Init;
      RunInv(states, k - 1);
      assert Step(states[k - 1], states[k]);
      var event: Event :| Takes(states[k - 1], event, states[k]);
      TakesIs(states[k - 1], event, states[k]);
      StepInv(states[k - 1], event);
    }
  }

  lemma TakesIs(s: State, event: Event, t: State)
    requires Takes(s, event, t)
    ensures Enabled(s, event) && t == Do(s, event)
  {
  }

  ghost predicate Reachable(s: State) {
    exists states: seq<State> :: Run(states) && s == states[|states| - 1]
  }

  lemma ReachableInv(s: State)
    requires Reachable(s)
    ensures Inv(s)
  {
    hide Inv;
    var states: seq<State> :| Run(states) && s == states[|states| - 1];
    RunInv(states, |states| - 1);
  }

  // ------------------------------------------------------------------ theorems

  /** In every run, for every promise and any number of embargoes at a time: the calls that have reached the
      capability are the first ones issued, in the order of issue, none lost and none twice; what is missing is
      reflected first and queued last. */
  lemma CallsArriveInOrder(s: State, p: nat)
    requires Reachable(s) && Known(s, p)
    ensures var c := s.clients[p];
      && c.delivered <= c.issued
      && c.issued[|c.delivered|..] == InBack(p, s.back) + (HeldBy(s.hosts[p]) + (InOut(p, s.out) + c.queue))
  {
    ReachableInv(s);
    hide PhaseOk, InOut, InBack;
    var c := s.clients[p];
    assert OkAt(s, p);
    var rest := InBack(p, s.back) + (HeldBy(s.hosts[p]) + (InOut(p, s.out) + c.queue));
    assert c.issued == c.delivered + rest;
  }

  /** By the time calls go straight to the capability, every earlier one has got there. */
  lemma DirectMeansCaughtUp(s: State, p: nat)
    requires Reachable(s) && Known(s, p) && s.clients[p].phase.Direct?
    ensures s.clients[p].delivered == s.clients[p].issued
  {
    ReachableInv(s);
    hide InOut, InBack;
    assert OkAt(s, p);
    LineLift(s.clients[p].issued, s.clients[p].delivered, []);
  }

  /** No message is refused: a `Disembargo` always meets a promise that leads back, a promise is resolved once,
      and an echo finds its embargo. */
  lemma NothingRefused(s: State)
    requires Reachable(s)
    ensures s.out != [] ==> OutAccepted(s, s.out[0])
    ensures s.back != [] ==> BackAccepted(s, s.back[0])
  {
    ReachableInv(s);
    hide Inv, OutAccepted, BackAccepted;
    if s.out != [] { OutIsAccepted(s); }
    if s.back != [] { BackIsAccepted(s); }
  }

  lemma OutIsAccepted(s: State)
    requires Inv(s) && s.out != []
    ensures OutAccepted(s, s.out[0])
  {
    hide InOut, InBack, AfterLoop, AfterEcho, Line, InLine, Fenced;
    var m := s.out[0];
    FrontOut(s.out);
    assert OkAt(s, m.p);
    if m.Loop? { assert Tokens(s, m.p, m.id) == One(Awaits(s, m.p, m.id)); }
  }

  lemma BackIsAccepted(s: State)
    requires Inv(s) && s.back != []
    ensures BackAccepted(s, s.back[0])
  {
    hide InOut, InBack, AfterLoop, AfterEcho, Line, InLine, Fenced;
    var m := s.back[0];
    FrontBack(s.back);
    assert OkAt(s, m.p);
    if m.Echo? { EchoIsAwaited(s); }
  }

  /** When nothing is in flight, waiting or held, everything issued has arrived. */
  lemma QuietMeansDelivered(s: State, p: nat)
    requires Reachable(s) && Known(s, p)
    requires s.out == [] && s.back == [] && s.tasks == [] && s.hosts[p].Settled? && !s.clients[p].phase.Lifting?
    ensures s.clients[p].delivered == s.clients[p].issued
  {
    ReachableInv(s);
    var c := s.clients[p];
    assert OkAt(s, p);
    assert c.phase.Embargoed? ==> Tokens(s, p, c.phase.id) == 0 && Awaits(s, p, c.phase.id);
    LineLift(c.issued, c.delivered, c.queue);
  }
}
