/** The queueing client of capnp-rpc/src/queued.rs: it collects calls until it is resolved, then forwards
    them, then tells whoever waits for the resolution, and from then on passes calls on
    directly. */
module Queued {
  import opened Options
  import opened SenderQueue

  /** The calls of `s` whose positions are not in `gone`, in order. */
  function Kept<T>(s: seq<T>, gone: set<nat>): (r: seq<T>) {
    if s == [] then []
    else Kept(s[..|s| - 1], gone) + (if |s| - 1 in gone then [] else [s[|s| - 1]])
  }

  lemma KeptSnoc<T>(s: seq<T>, c: T, gone: set<nat>)
    ensures Kept(s + [c], gone) == Kept(s, gone) + (if |s| in gone then [] else [c])
  {
    assert (s + [c])[..|s|] == s;
  }

  /** A queue that holds each issued call under its position, unless it was dropped, drains to exactly
      the calls that were not dropped, in the order of issue. */
  lemma {:induction false} QueueHoldsKept<T>(m: map<nat, T>, issued: seq<T>, gone: set<nat>, hi: nat)
    requires hi <= |issued|
    requires forall k: nat | k < hi :: k in m <==> k !in gone
    requires forall k: nat | k < hi && k in m :: m[k] == issued[k]
    ensures InOrder(m, hi) == Kept(issued[..hi], gone)
  {
    if hi == 0 {
    } else {
      QueueHoldsKept(m, issued, gone, hi - 1);
      assert issued[..hi][..hi - 1] == issued[..hi - 1];
    }
  }

  /** The capability that a client resolves to: it records the calls that reach it. */
  class Target<T> {
    var received: seq<T>

    constructor ()
      ensures received == []
    {
      received := [];
    }

    method Call(c: T)
      modifies this
      ensures received == old(received) + [c]
    {
      received := received + [c];
    }
  }

  datatype Event<T> = Forwarded(call: T) | Notified(waiter: nat)

  /** What a caller holds: a promise for a queued call, which removes the call when dropped, or a call
      that is already on its way. */
  datatype Ticket = Waiting(id: nat) | OnItsWay

  class Client<T> {
    var redirect: Option<Target<T>>
    const calls: Queue<T>
    const waiters: Queue<nat>

    // Every call made on this client; the positions of those dropped while queued; what this client
    // passed on and when it told its waiters; and how many calls were queued at resolution.
    ghost var issued: seq<T>
    ghost var gone: set<nat>
    ghost var log: seq<Event<T>>
    ghost var queued: seq<T>

    ghost predicate Valid()
      reads this, calls, waiters
    {
      && calls as object != waiters as object && calls.Valid() && waiters.Valid()
      && (forall k | k in gone :: k < |issued|)
      && if redirect.None? then
           && log == [] && calls.nextId == |issued| && calls.epoch == 0
           && (forall k: nat | k < |issued| :: k in calls.entries <==> k !in gone)
           && (forall k: nat | k in calls.entries :: calls.entries[k] == issued[k])
         else
           // Nothing is queued any more, so the ids that start over are never used.
           && calls.entries == map[] && waiters.entries == map[] && calls.epoch > 0
           // Everything issued and not dropped was passed on, once, in order ...
           && Calls(log) == Kept(issued, gone)
           // ... and what was queued went before anything else.
           && |queued| <= |log|
           && forall p | 0 <= p < |queued| :: log[p] == Forwarded(queued[p])
    }

    constructor ()
      ensures Valid() && fresh(calls) && fresh(waiters)
      ensures redirect == None && issued == [] && gone == {} && log == []
    {
      redirect := None;
      calls := new Queue<T>();
      waiters := new Queue<nat>();
      issued, gone, log, queued := [], {}, [], [];
      new;
      assert Kept<T>([], {}) == [];
    }

    /** Makes a call: it is queued, or, after the resolution, goes straight to the target. */
    method Call(c: T) returns (t: Ticket)
      requires Valid() && (redirect.Some? ==> redirect.value as object !in {this, calls, waiters})
      modifies this, calls, if redirect.Some? then {redirect.value} else {}
      ensures Valid() && redirect == old(redirect) && gone == old(gone) && issued == old(issued) + [c]
      ensures redirect.None? ==> t == Waiting(|old(issued)|) && log == old(log)
      ensures redirect.Some? ==> t == OnItsWay && log == old(log) + [Forwarded(c)]
      ensures redirect.Some? ==> redirect.value.received == old(redirect.value.received) + [c]
    {
      KeptSnoc(issued, c, gone);
      if redirect.Some? {
        redirect.value.Call(c);
        CallsSnoc(log, Forwarded(c));
        log := log + [Forwarded(c)];
        issued := issued + [c];
        return OnItsWay;
      }
      var id, ticket := calls.Push(c);
      issued := issued + [c];
      t := Waiting(id);
    }

    /** Drops the promise of a call. A queued call is removed; a call on its way is not touched. */
    method DropCall(t: Ticket)
      requires Valid() && (t.Waiting? ==> t.id < |issued|)
      modifies this, calls
      ensures Valid() && redirect == old(redirect) && issued == old(issued) && log == old(log)
      ensures gone == if redirect.None? && t.Waiting? then old(gone) + {t.id} else old(gone)
      // The remover never takes out another call, although the ids start over.
      ensures t.Waiting? ==>
        forall k | k in old(calls.owner) && k !in calls.owner :: old(calls.owner)[k] == SenderQueue.Ticket(0, t.id)
    {
      if t.Waiting? {
        calls.Remove(t.id, SenderQueue.Ticket(0, t.id));
        if redirect.None? { gone := gone + {t.id}; }
      }
    }

    /** Asks to be told of the resolution. */
    method WhenMoreResolved(w: nat)
      requires Valid()
      modifies this, waiters
      ensures Valid() && redirect == old(redirect) && issued == old(issued) && gone == old(gone)
      ensures log == if redirect.Some? then old(log) + [Notified(w)] else old(log)
      ensures redirect.None? ==> waiters.Items() == old(waiters.Items()) + [w]
    {
      if redirect.Some? {
        CallsSnoc(log, Notified(w));
        log := log + [Notified(w)];
      } else {
        var _, _ := waiters.Push(w);
      }
    }

    method ForwardAll(target: Target<T>, items: seq<T>)
      requires target as object != this && log == []
      modifies this`log, target
      ensures target.received == old(target.received) + items && log == Forwards(items)
    {
      for i := 0 to |items|
        invariant target.received == old(target.received) + items[..i] && log == Forwards(items[..i])
      {
        assert items[..i + 1] == items[..i] + [items[i]];
        target.Call(items[i]);
        log := log + [Forwarded(items[i])];
      }
      assert items[..|items|] == items;
    }

    method NotifyAll(ws: seq<nat>)
      modifies this`log
      ensures log == old(log) + Notifications(ws)
    {
      for i := 0 to |ws|
        invariant log == old(log) + Notifications(ws[..i])
      {
        assert ws[..i + 1] == ws[..i] + [ws[i]];
        log := log + [Notified(ws[i])];
      }
      assert ws[..|ws|] == ws;
    }

    /** Resolves: forwards what is queued, in order, and only then tells the waiters. */
    method Resolve(target: Target<T>)
      requires Valid() && redirect.None? && target as object !in {this, calls, waiters}
      modifies this, calls, waiters, target
      ensures Valid() && redirect == Some(target) && issued == old(issued) && gone == old(gone)
      ensures target.received == old(target.received) + Kept(issued, gone)
      ensures log == Forwards(Kept(issued, gone)) + Notifications(old(waiters.Items()))
      ensures queued == Kept(issued, gone)
    {
      assert issued[..|issued|] == issued;
      QueueHoldsKept(calls.entries, issued, gone, |issued|);
      redirect := Some(target);
      var items := calls.Drain();
      queued := items;
      ForwardAll(target, items);
      var ws := waiters.Drain();
      NotifyAll(ws);
      ForwardsFirst(items, ws);
    }
  }

  /** The calls of a log. */
  ghost function Calls<T>(log: seq<Event<T>>): seq<T> {
    if log == [] then []
    else Calls(log[..|log| - 1]) + (if log[|log| - 1].Forwarded? then [log[|log| - 1].call] else [])
  }

  lemma CallsSnoc<T>(log: seq<Event<T>>, e: Event<T>)
    ensures Calls(log + [e]) == Calls(log) + (if e.Forwarded? then [e.call] else [])
  {
    assert (log + [e])[..|log|] == log;
  }

  ghost function Forwards<T>(s: seq<T>): (log: seq<Event<T>>)
    ensures |log| == |s| && forall i | 0 <= i < |s| :: log[i] == Forwarded(s[i])
  {
    seq(|s|, i requires 0 <= i < |s| => Forwarded(s[i]))
  }

  ghost function Notifications<T>(ws: seq<nat>): (log: seq<Event<T>>)
    ensures |log| == |ws| && forall i | 0 <= i < |ws| :: log[i] == Notified(ws[i])
  {
    seq(|ws|, i requires 0 <= i < |ws| => Notified(ws[i]))
  }

  lemma {:induction false} ForwardsFirst<T>(s: seq<T>, ws: seq<nat>)
    ensures Calls(Forwards(s) + Notifications(ws)) == s
  {
    if ws != [] {
      var n := |ws| - 1;
      ForwardsFirst(s, ws[..n]);
      assert Forwards(s) + Notifications(ws) == (Forwards(s) + Notifications(ws[..n])) + [Notified(ws[n])];
      CallsSnoc(Forwards(s) + Notifications(ws[..n]), Notified(ws[n]));
    } else if s != [] {
      var n := |s| - 1;
      ForwardsFirst(s[..n], ws);
      assert Forwards(s) + Notifications(ws) == (Forwards(s[..n]) + Notifications(ws)) + [Forwarded(s[n])];
      CallsSnoc(Forwards(s[..n]) + Notifications(ws), Forwarded(s[n]));
    }
  }
}
