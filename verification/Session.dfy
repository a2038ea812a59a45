/** Two connection objects joined by what they send each other, driven by an arbitrary script. */
module Session {
  import opened Options
  import opened Rpc
  import opened RpcRuns
  import opened Connection

  datatype Turn = Turn(left: bool, event: Event)

  /** The event can take place: the action is possible, or there is a message to take in. */
  predicate Possible(v: Vat, inbox: seq<Msg>, event: Event) {
    match event
    case Act(a) => Enabled(v, a)
    case Receive(_, _) => inbox != []
  }

  /** What an event does to one vat: its new state, what it sends, and how many messages it takes in. */
  ghost predicate VatStep(v: Vat, inbox: seq<Msg>, event: Event, w: Vat, out: seq<Msg>, taken: nat) {
    && LocalOk(v)
    && match event
       case Act(a) => Enabled(v, a) && (w, out) == (Do(v, a).0, [Do(v, a).1]) && taken == 0
       case Receive(called, leads) =>
         && inbox != [] && taken == 1
         && Handle(v, inbox[0], called, leads) == Ok(w, out)
  }

  lemma VatStepIsStep(s: System, event: Event, w: Vat, out: seq<Msg>, taken: nat)
    requires VatStep(s.left, s.toLeft, event, w, out, taken) && taken <= |s.toLeft|
    ensures LeftStep(s, event, System(w, s.right, s.toRight + out, s.toLeft[taken..]))
  {
    hide LocalOk, Do, Handle;
    assert s.toLeft[0..] == s.toLeft;
  }

  /** One turn of one side. An event takes place exactly if it is possible, and otherwise is passed over. */
  method TakeTurn(me: ConnectionState, inbox: seq<Msg>, event: Event)
    returns (error: Option<Error>, acted: bool, taken: nat)
    requires me.Valid()
    modifies me, me.exports, me.questions, me.embargoes
    ensures taken <= |inbox| && acted == Possible(old(me.View()), inbox, event)
    ensures error.None? ==> me.Valid() && old(me.sent) <= me.sent
    ensures error.None? && acted ==>
      VatStep(old(me.View()), inbox, event, me.View(), me.sent[|old(me.sent)|..], taken)
    ensures error.None? && !acted ==> me.View() == old(me.View()) && me.sent == old(me.sent) && taken == 0
    ensures error.Some? ==>
      event.Receive? && inbox != [] && Handle(old(me.View()), inbox[0], event.called, event.leads) == Err(error.value)
  {
    hide LocalOk, Do, Handle;
    error, acted, taken := None, false, 0;
    match event
    case Act(a) =>
      if Enabled(me.View(), a) {
        me.Perform(a);
        acted := true;
      }
    case Receive(called, leads) =>
      if inbox != [] {
        error := me.HandleMessage(inbox[0], called, leads);
        acted, taken := true, 1;
      }
  }

  /** The connection as a state of `RpcRuns`: what one side has sent and the other has not taken in is in
      flight. */
  ghost function InFlight(v: Vat, w: Vat, sent: seq<Msg>, seen: nat, sent': seq<Msg>, seen': nat): System
    requires seen <= |sent| && seen' <= |sent'|
  {
    System(v, w, sent[seen..], sent'[seen'..])
  }

  /** The left side's event takes place if it is possible, and otherwise nothing happens. */
  ghost predicate Advances(s: System, event: Event, t: System) {
    if Possible(s.left, s.toLeft, event) then LeftStep(s, event, t) else t == s
  }

  /** A turn of the side whose vat becomes `v'`, and which has then sent `sent'`, is a step of the connection. */
  lemma TurnAdvances(s: System, event: Event, v': Vat, sent: seq<Msg>, sent': seq<Msg>, seen: nat,
                     inbox: seq<Msg>, at: nat, taken: nat)
    requires seen <= |sent| && sent <= sent' && at + taken <= |inbox|
    requires s == InFlight(s.left, s.right, sent, seen, inbox, at) && Possible(s.left, s.toLeft, event)
    requires VatStep(s.left, s.toLeft, event, v', sent'[|sent|..], taken)
    ensures Advances(s, event, InFlight(v', s.right, sent', seen, inbox, at + taken))
  {
    hide VatStep, LeftStep;
    VatStepIsStep(s, event, v', sent'[|sent|..], taken);
    assert sent[seen..] + sent'[|sent|..] == sent'[seen..];
    assert inbox[at..][taken..] == inbox[at + taken..];
  }

  /** The left side cannot take in its next message. */
  ghost predicate Refuses(s: System, event: Event, e: Error) {
    && event.Receive? && s.toLeft != [] && LocalOk(s.left)
    && Handle(s.left, s.toLeft[0], event.called, event.leads) == Err(e)
  }

  /** The two sides' objects have no table in common. */
  ghost predicate Apart(a: ConnectionState, b: ConnectionState) {
    {a, a.exports, a.questions, a.embargoes} !! {b, b.exports, b.questions, b.embargoes}
  }

  /** One turn of one side is that step of the connection, or nothing if it is not possible. */
  method TurnOf(me: ConnectionState, peer: ConnectionState, seenOfMine: nat, seenOfPeer: nat, event: Event)
    returns (error: Option<Error>, taken: nat)
    requires Apart(me, peer) && me.Valid() && peer.Valid()
    requires seenOfMine <= |me.sent| && seenOfPeer <= |peer.sent|
    modifies me, me.exports, me.questions, me.embargoes
    ensures seenOfPeer + taken <= |peer.sent| && seenOfMine <= |old(me.sent)|
    ensures var s := InFlight(old(me.View()), peer.View(), old(me.sent), seenOfMine, peer.sent, seenOfPeer);
      match error
      case Some(e) => Refuses(s, event, e)
      case None =>
        && me.Valid() && seenOfMine <= |me.sent|
        && Advances(s, event, InFlight(me.View(), peer.View(), me.sent, seenOfMine, peer.sent, seenOfPeer + taken))
  {
    hide LocalOk, Do, Handle, VatStep, LeftStep, Possible;
    ghost var s := InFlight(me.View(), peer.View(), me.sent, seenOfMine, peer.sent, seenOfPeer);
    ghost var before := me.sent;
    var acted;
    error, acted, taken := TakeTurn(me, peer.sent[seenOfPeer..], event);
    if error.None? && acted {
      TurnAdvances(s, event, me.View(), before, me.sent, seenOfMine, peer.sent, seenOfPeer, taken);
    }
  }

  /** A turn of either side. */
  ghost predicate Follows(s: System, turn: Turn, t: System) {
    if turn.left then Advances(s, turn.event, t) else Advances(Mirror(s), turn.event, Mirror(t))
  }

  /** A turn of one of two objects. */
  method PlayTurn(left: ConnectionState, right: ConnectionState, ofLeft: nat, ofRight: nat, turn: Turn)
    returns (error: Option<Error>, seenByRight: nat, seenByLeft: nat)
    requires Apart(left, right) && left.Valid() && right.Valid() && ofLeft <= |left.sent| && ofRight <= |right.sent|
    modifies left, left.exports, left.questions, left.embargoes
    modifies right, right.exports, right.questions, right.embargoes
    ensures var s := old(InFlight(left.View(), right.View(), left.sent, ofLeft, right.sent, ofRight));
      match error
      case Some(e) => Refuses(if turn.left then s else Mirror(s), turn.event, e)
      case None =>
        && left.Valid() && right.Valid() && seenByRight <= |left.sent| && seenByLeft <= |right.sent|
        && Follows(s, turn, InFlight(left.View(), right.View(), left.sent, seenByRight, right.sent, seenByLeft))
  {
    hide LocalOk, Refuses, Advances;
    var taken;
    seenByRight, seenByLeft := ofLeft, ofRight;
    if turn.left {
      error, taken := TurnOf(left, right, ofLeft, ofRight, turn.event);
      seenByLeft := ofRight + taken;
    } else {
      error, taken := TurnOf(right, left, ofRight, ofLeft, turn.event);
      seenByRight := ofLeft + taken;
    }
  }

  /** What the connection has been through: from two new vats, one turn after the other. */
  ghost predicate Trace(states: seq<System>, script: seq<Turn>) {
    && 0 < |states| <= |script| + 1 && Init(states[0])
    && forall i | 0 < i < |states| :: Follows(states[i - 1], script[i - 1], states[i])
  }

  lemma FollowsReaches(s: System, turn: Turn, t: System)
    requires Reachable(s) && Follows(s, turn, t)
    ensures Reachable(t)
  {
    hide Reachable, LeftStep, Step, Possible;
    if t == s {
    } else if turn.left {
      OnLeft(s, turn.event, t);
      ReachNext(s, t);
    } else {
      assert Mirror(t) != Mirror(s);
      OnRight(s, turn.event, t);
      ReachNext(s, t);
    }
  }

  lemma {:induction false} TraceReaches(states: seq<System>, script: seq<Turn>, k: nat)
    requires Trace(states, script) && k < |states|
    ensures Reachable(states[k])
  {
    hide Reachable, Follows;
    if k == 0 {
      StartReaches(states[0]);
    } else {
      TraceReaches(states, script, k - 1);
      FollowsReaches(states[k - 1], script[k - 1], states[k]);
    }
  }

  lemma StartReaches(s: System)
    requires Init(s)
    ensures Reachable(s)
  {
    assert Run([s]) && [s][0] == s;
  }

  /** The errors that can end a connection of two such objects. */
  predicate Excusable(e: Error) {
    e == ResolveOfNonPromise || e == NotLoopback
  }

  lemma RefusalIsExcusable(s: System, event: Event, e: Error)
    requires (Reachable(s) || Reachable(Mirror(s))) && Refuses(s, event, e)
    ensures Excusable(e)
  {
    hide Reachable, Handle, Inv;
    if Reachable(s) { ReachableInv(s); } else { ReachableInv(Mirror(s)); }
    InvErrors(s, event.called, event.leads);
  }

  /** Two new objects, each the other's peer, under any script: they go through exactly the steps that the script says
      and that are possible, so that every state they come to is reachable; or the script comes to a message
      that is refused, and that is for one of two reasons. */
  method Play(bootLeft: Hook, bootRight: Hook, script: seq<Turn>)
    returns (left: ConnectionState, right: ConnectionState, seenByRight: nat, seenByLeft: nat, error: Option<Error>,
             ghost states: seq<System>)
    requires IsLocal(bootLeft) && IsLocal(bootRight)
    ensures Trace(states, script) && states[0].left.boot == bootLeft && states[0].right.boot == bootRight
    ensures forall k | 0 <= k < |states| :: Reachable(states[k])
    ensures error.None? ==>
      && |states| == |script| + 1
      && left.Valid() && right.Valid() && seenByRight <= |left.sent| && seenByLeft <= |right.sent|
      && states[|script|] ==
         System(left.View(), right.View(), left.sent[seenByRight..], right.sent[seenByLeft..])
    ensures error.Some? ==>
      && |states| <= |script| && Excusable(error.value)
      && var s, turn := states[|states| - 1], script[|states| - 1];
         Refuses(if turn.left then s else Mirror(s), turn.event, error.value)
  {
    hide LocalOk, Reachable, Excusable, Refuses, Follows;
    left := new ConnectionState(bootLeft);
    right := new ConnectionState(bootRight);
    seenByRight, seenByLeft, error := 0, 0, None;
    states := [InFlight(left.View(), right.View(), [], 0, [], 0)];
    for i := 0 to |script|
      invariant fresh(left) && fresh(left.exports) && fresh(left.questions) && fresh(left.embargoes)
      invariant fresh(right) && fresh(right.exports) && fresh(right.questions) && fresh(right.embargoes)
      invariant Apart(left, right) && left.Valid() && right.Valid()
      invariant seenByRight <= |left.sent| && seenByLeft <= |right.sent| && error == None
      invariant |states| == i + 1 && Trace(states, script)
      invariant states[0].left.boot == bootLeft && states[0].right.boot == bootRight
      invariant states[i] == InFlight(left.View(), right.View(), left.sent, seenByRight, right.sent, seenByLeft)
    {
      ghost var s := states[i];
      error, seenByRight, seenByLeft := PlayTurn(left, right, seenByRight, seenByLeft, script[i]);
      if error.Some? {
        TracesReach(states, script);
        assert Mirror(Mirror(s)) == s;
        RefusalIsExcusable(if script[i].left then s else Mirror(s), script[i].event, error.value);
        return;
      }
      ghost var t := InFlight(left.View(), right.View(), left.sent, seenByRight, right.sent, seenByLeft);
      TraceGrows(states, script, t);
      states := states + [t];
    }
    TracesReach(states, script);
  }

  lemma TraceGrows(states: seq<System>, script: seq<Turn>, t: System)
    requires Trace(states, script) && |states| <= |script|
    requires Follows(states[|states| - 1], script[|states| - 1], t)
    ensures Trace(states + [t], script)
  {
    hide Follows;
  }

  lemma TracesReach(states: seq<System>, script: seq<Turn>)
    requires Trace(states, script)
    ensures forall k | 0 <= k < |states| :: Reachable(states[k])
  {
    hide Reachable, Trace;
    forall k | 0 <= k < |states| ensures Reachable(states[k]) { TraceReaches(states, script, k); }
  }
}
