/** Calls through promises do arrive: whatever is under way comes to an end by itself, under any schedule, and then
    every promise that was made leads straight to its capability and every call has reached it. */
module EmbargoProgress {
  import opened IdTable
  import opened Embargo

  // ------------------------------------------------------------ what is left to do

  /** How many steps a message to the peer can still cause. */
  function OutLoad(out: seq<Out>): nat {
    if out == [] then 0 else (if out[0].CallOn? then 3 else 4) + OutLoad(out[1..])
  }

  function BackLoad(back: seq<Back>): nat {
    if back == [] then 0
    else (if back[0].Reflected? then 1 else if back[0].Echo? then 2 else 5) + BackLoad(back[1..])
  }

  function HostLoad(hosts: seq<Host>): nat {
    if hosts == [] then 0
    else
      (match hosts[0]
       case Holding(held) => 7 + 2 * |held|
       case Settled(announced) => if announced then 0 else 6)
      + HostLoad(hosts[1..])
  }

  function ClientLoad(clients: seq<Client>): nat {
    if clients == [] then 0 else One(clients[0].phase.Lifting?) + ClientLoad(clients[1..])
  }

  function Load(s: State): nat {
    OutLoad(s.out) + 3 * |s.tasks| + BackLoad(s.back) + HostLoad(s.hosts) + ClientLoad(s.clients)
  }

  lemma {:induction false} OutLoadSnoc(out: seq<Out>, m: Out)
    ensures OutLoad(out + [m]) == OutLoad(out) + if m.CallOn? then 3 else 4
  {
    if out == [] {
      assert (out + [m])[1..] == [];
    } else {
      assert (out + [m])[1..] == out[1..] + [m];
      OutLoadSnoc(out[1..], m);
    }
  }

  lemma {:induction false} BackLoadAdd(back: seq<Back>, more: seq<Back>)
    ensures BackLoad(back + more) == BackLoad(back) + BackLoad(more)
  {
    if back == [] {
      assert back + more == more;
    } else {
      assert (back + more)[1..] == back[1..] + more;
      BackLoadAdd(back[1..], more);
    }
  }

  lemma {:induction false} ReflectLoad(p: nat, calls: seq<Call>)
    ensures BackLoad(Reflect(p, calls)) == |calls|
  {
    if calls == [] {
    } else {
      assert Reflect(p, calls)[1..] == Reflect(p, calls[1..]);
      ReflectLoad(p, calls[1..]);
    }
  }

  lemma {:induction false} HostLoadSet(hosts: seq<Host>, p: nat, h: Host)
    requires p < |hosts|
    ensures HostLoad(hosts[p := h]) + HostLoad([hosts[p]]) == HostLoad(hosts) + HostLoad([h])
  {
    if p == 0 {
      assert hosts[p := h][1..] == hosts[1..];
    } else {
      assert hosts[p := h][1..] == hosts[1..][p - 1 := h];
      HostLoadSet(hosts[1..], p - 1, h);
    }
  }

  lemma {:induction false} ClientLoadSet(clients: seq<Client>, p: nat, c: Client)
    requires p < |clients|
    ensures ClientLoad(clients[p := c]) + One(clients[p].phase.Lifting?) == ClientLoad(clients) + One(c.phase.Lifting?)
  {
    if p == 0 {
      assert clients[p := c][1..] == clients[1..];
    } else {
      assert clients[p := c][1..] == clients[1..][p - 1 := c];
      ClientLoadSet(clients[1..], p - 1, c);
    }
  }

  /** What happens by itself, once the application has stopped making promises and calls. */
  predicate Internal(event: Event) {
    !event.Promised? && !event.Issue? && !event.Describe?
  }

  lemma TakeOutLoad(s: State)
    requires Enabled(s, TakeOut)
    ensures Load(DoTakeOut(s)) < Load(s)
  {
    hide BackLoad, ClientLoad;
    match s.out[0]
    case CallOn(p, call) =>
      if s.hosts[p].Holding? {
        HostLoadSet(s.hosts, p, Holding(s.hosts[p].held + [call]));
      } else {
        BackLoadOne(s.back, Reflected(p, call));
      }
    case Loop(_, _) =>
  }

  lemma BackLoadOne(back: seq<Back>, m: Back)
    ensures BackLoad(back + [m]) == BackLoad(back) + if m.Reflected? then 1 else if m.Echo? then 2 else 5
  {
    BackLoadAdd(back, [m]);
  }

  lemma TakeBackLoad(s: State)
    requires Enabled(s, TakeBack)
    ensures Load(DoTakeBack(s)) < Load(s)
  {
    hide OutLoad, HostLoad, ClientLoad, NextId;
    var c := DoTakeBack(s).clients;
    match s.back[0]
    case Reflected(p, call) => ClientLoadSet(s.clients, p, c[p]);
    case Resolved(p) =>
      ClientLoadSet(s.clients, p, c[p]);
      if s.clients[p].called { OutLoadSnoc(s.out, Loop(p, NextId(s.embargoes))); }
    case Echo(_, id) => ClientLoadSet(s.clients, s.embargoes[id].value, c[s.embargoes[id].value]);
  }

  lemma SettleLoad(s: State, p: nat, announce: bool)
    requires Known(s, p) && s.hosts[p].Holding?
    ensures Load(DoSettle(s, p, announce)) < Load(s)
  {
    hide OutLoad, ClientLoad, Reflect;
    var first := if announce then [Resolved(p)] else [];
    HostLoadSet(s.hosts, p, Settled(announce));
    BackLoadAdd(s.back + first, Reflect(p, s.hosts[p].held));
    BackLoadAdd(s.back, first);
    ReflectLoad(p, s.hosts[p].held);
  }

  /** Every such step brings the end nearer. */
  lemma InternalLoad(s: State, event: Event)
    requires Enabled(s, event) && Internal(event)
    ensures Load(Do(s, event)) < Load(s)
  {
    hide OutLoad, BackLoad, ClientLoad, DoTakeOut, DoTakeBack, DoSettle;
    match event
    case TakeOut => TakeOutLoad(s);
    case TakeBack => TakeBackLoad(s);
    case Settle(p, announce) => SettleLoad(s, p, announce);
    case Announce(p) =>
      HostLoadSet(s.hosts, p, Settled(true));
      BackLoadOne(s.back, Resolved(p));
    case RunTask(k) => BackLoadOne(s.back, Echo(s.tasks[k].p, s.tasks[k].id));
    case Lift(p) => ClientLoadSet(s.clients, p, Do(s, event).clients[p]);
  }

  // --------------------------------------------------------------- until the end

  lemma {:induction false} BusyHost(hosts: seq<Host>) returns (p: nat)
    requires HostLoad(hosts) > 0
    ensures p < |hosts| && hosts[p] != Settled(true)
  {
    if hosts[0] == Settled(true) {
      p := BusyHost(hosts[1..]);
      p := p + 1;
    } else {
      p := 0;
    }
  }

  lemma {:induction false} BusyClient(clients: seq<Client>) returns (p: nat)
    requires ClientLoad(clients) > 0
    ensures p < |clients| && clients[p].phase.Lifting?
  {
    if clients[0].phase.Lifting? {
      p := 0;
    } else {
      p := BusyClient(clients[1..]);
      p := p + 1;
    }
  }

  /** As long as anything is left to do, something can be done. */
  lemma NotStuck(s: State) returns (event: Event)
    requires Reachable(s) && Load(s) > 0
    ensures Enabled(s, event) && Internal(event)
  {
    hide Reachable, Load;
    NothingRefused(s);
    assert |s.clients| == |s.hosts| by { ReachableRange(s); }
    if s.out != [] {
      event := TakeOut;
    } else if s.back != [] {
      event := TakeBack;
    } else if s.tasks != [] {
      event := RunTask(0);
    } else {
      OnlyTables(s);
      if HostLoad(s.hosts) > 0 {
        var p := BusyHost(s.hosts);
        event := if s.hosts[p].Holding? then Settle(p, true) else Announce(p);
      } else {
        var p := BusyClient(s.clients);
        event := Lift(p);
      }
    }
  }

  lemma OnlyTables(s: State)
    requires Load(s) > 0 && s.out == [] && s.back == [] && s.tasks == []
    ensures HostLoad(s.hosts) > 0 || ClientLoad(s.clients) > 0
  {
  }

  lemma ReachableRange(s: State)
    requires Reachable(s)
    ensures |s.clients| == |s.hosts|
  {
    hide Reachable;
    ReachableInv(s);
  }

  lemma {:induction false} IdleHost(hosts: seq<Host>, p: nat)
    requires HostLoad(hosts) == 0 && p < |hosts|
    ensures hosts[p] == Settled(true)
  {
    if p == 0 {
    } else {
      IdleHost(hosts[1..], p - 1);
    }
  }

  lemma {:induction false} IdleClient(clients: seq<Client>, p: nat)
    requires ClientLoad(clients) == 0 && p < |clients|
    ensures !clients[p].phase.Lifting?
  {
    if p == 0 {
    } else {
      IdleClient(clients[1..], p - 1);
    }
  }

  /** When nothing is left to do, every promise leads straight to its capability and every call has reached it. */
  lemma IdleMeansDelivered(s: State, p: nat)
    requires Reachable(s) && Load(s) == 0 && p < |s.clients|
    ensures s.clients[p].phase.Direct? && s.clients[p].delivered == s.clients[p].issued
  {
    hide Reachable;
    ReachableInv(s);
    IdleHost(s.hosts, p);
    IdleClient(s.clients, p);
    QuietMeansDelivered(s, p);
    assert OkAt(s, p);
    var phase := s.clients[p].phase;
    assert phase.Embargoed? ==> Tokens(s, p, phase.id) == One(Awaits(s, p, phase.id));
  }

  /** The calls issued are those that were made, in order. */
  lemma IssuedIs(s: State, event: Event, p: nat)
    requires Enabled(s, event) && p < |s.clients|
    ensures var t := Do(s, event);
      && p < |t.clients|
      && t.clients[p].issued ==
         if event.Issue? && event.p == p then s.clients[p].issued + [event.call] else s.clients[p].issued
  {
    hide NextId, Reflect;
  }

  /** A promise has been used exactly if it was called or described before it was resolved; and when it is resolved it
      goes behind an embargo exactly if it has been used. */
  lemma UsedIsEmbargoed(s: State, event: Event, p: nat)
    requires Enabled(s, event) && p < |s.clients|
    ensures var t := Do(s, event);
      && p < |t.clients|
      && (t.clients[p].called <==>
          s.clients[p].called || (s.clients[p].phase.Unresolved? && (event.Issue? || event.Describe?) && event.p == p))
      && (event.TakeBack? && s.back[0] == Resolved(p) ==>
          if s.clients[p].called then t.clients[p].phase.Embargoed? else t.clients[p].phase.Direct?)
  {
    hide NextId, Reflect;
  }

  /** A promise that settles sends back what it held, in order, behind the announcement if that goes with it. */
  lemma SettleReflects(s: State, p: nat, announce: bool)
    requires Enabled(s, Settle(p, announce))
    ensures var t, held := Do(s, Settle(p, announce)), s.hosts[p].held;
      var n := |s.back| + One(announce);
      && |t.back| == n + |held| && t.back[..|s.back|] == s.back
      && (announce ==> t.back[|s.back|] == Resolved(p))
      && forall k | 0 <= k < |held| :: t.back[n + k] == Reflected(p, held[k])
  {
    ReflectAt(p, s.hosts[p].held);
    hide Reflect;
  }

  lemma {:induction false} ReflectAt(p: nat, calls: seq<Call>)
    ensures |Reflect(p, calls)| == |calls|
    ensures forall k | 0 <= k < |calls| :: Reflect(p, calls)[k] == Reflected(p, calls[k])
  {
    if calls == [] {
    } else {
      ReflectAt(p, calls[1..]);
    }
  }

  /** A new promise has not been used, and nothing is known of what it will be. */
  lemma PromisedIsNew(s: State)
    requires Reachable(s)
    ensures var t, p := Do(s, Promised), |s.clients|;
      && |t.clients| == |t.hosts| == p + 1 && t.hosts[p] == Holding([])
      && t.clients[p].phase.Unresolved? && !t.clients[p].called && t.clients[p].issued == []
  {
    hide Reachable;
    ReachableRange(s);
  }

  lemma ReachNext(s: State, event: Event)
    requires Reachable(s) && Enabled(s, event)
    ensures Reachable(Do(s, event))
  {
    hide Do, Enabled;
    var states: seq<State> :| Run(states) && s == states[|states| - 1];
    var t := Do(s, event);
    var more := states + [t];
    assert Takes(s, event, t);
    assert forall i | 0 < i < |more| :: Step(more[i - 1], more[i]);
    assert Run(more) && more[|more| - 1] == t;
  }

  /** By itself, and under any schedule, for `Load` counts the steps down, the system comes to a state in which every
      promise leads straight to its capability, which has got exactly the calls that had been issued, in order. */
  lemma EverythingArrives(s: State) returns (events: seq<Event>, t: State)
    requires Reachable(s)
    ensures |events| <= Load(s) && forall k | 0 <= k < |events| :: Internal(events[k])
    ensures Follows(s, events, t)
    ensures Reachable(t) && |t.clients| == |s.clients|
    ensures forall p | 0 <= p < |s.clients| ::
      t.clients[p].phase.Direct? && t.clients[p].delivered == t.clients[p].issued == s.clients[p].issued
    decreases Load(s)
  {
    hide Reachable, Load, Do, Enabled;
    if Load(s) == 0 {
      events, t := [], s;
      forall p | 0 <= p < |s.clients|
        ensures s.clients[p].phase.Direct? && s.clients[p].delivered == s.clients[p].issued
      {
        IdleMeansDelivered(s, p);
      }
    } else {
      var event := NotStuck(s);
      InternalLoad(s, event);
      ReachNext(s, event);
      SameClients(s, event);
      forall p | 0 <= p < |s.clients| ensures Do(s, event).clients[p].issued == s.clients[p].issued {
        IssuedIs(s, event, p);
      }
      var rest;
      rest, t := EverythingArrives(Do(s, event));
      events := [event] + rest;
    }
  }

  lemma SameClients(s: State, event: Event)
    requires Enabled(s, event) && Internal(event)
    ensures |Do(s, event).clients| == |s.clients|
  {
  }

  /** The events can happen one after the other, and lead from `s` to `t`. */
  predicate Follows(s: State, events: seq<Event>, t: State)
    decreases |events|
  {
    if events == [] then t == s else Enabled(s, events[0]) && Follows(Do(s, events[0]), events[1..], t)
  }
}
