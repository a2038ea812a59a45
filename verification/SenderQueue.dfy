/** The queue of capnp-rpc/src/sender_queue.rs: values under increasing ids, each removable until the
    queue is drained. */
module SenderQueue {

  /** The values of `m` with ids below `hi`, in id order. */
  function InOrder<T>(m: map<nat, T>, hi: nat): (s: seq<T>) {
    if hi == 0 then [] else InOrder(m, hi - 1) + (if hi - 1 in m then [m[hi - 1]] else [])
  }

  lemma {:induction false} InOrderSame<T>(m: map<nat, T>, n: map<nat, T>, hi: nat)
    requires forall k: nat | k < hi :: (k in m <==> k in n) && (k in m ==> m[k] == n[k])
    ensures InOrder(m, hi) == InOrder(n, hi)
  {
    if hi == 0 {
    } else {
      InOrderSame(m, n, hi - 1);
    }
  }

  lemma {:induction false} InOrderEmpty<T>(hi: nat)
    ensures InOrder<T>(map[], hi) == []
  {
    if hi == 0 {
    } else {
      InOrderEmpty<T>(hi - 1);
    }
  }

  /** Removing an entry takes out its value and leaves the order of the rest. */
  lemma {:induction false} InOrderRemove<T>(m: map<nat, T>, id: nat, hi: nat)
    requires id in m && id < hi
    ensures var k := |InOrder(m, id)|; var all := InOrder(m, hi);
      k < |all| && all[k] == m[id] && InOrder(m - {id}, hi) == all[..k] + all[k + 1..]
  {
    if hi - 1 == id {
      InOrderSame(m, m - {id}, id);
    } else {
      InOrderRemove(m, id, hi - 1);
      assert InOrder(m, hi) == InOrder(m, hi - 1) + (if hi - 1 in m then [m[hi - 1]] else []);
      assert InOrder(m - {id}, hi) == InOrder(m - {id}, hi - 1) + (if hi - 1 in m then [m[hi - 1]] else []);
      var k, most := |InOrder(m, id)|, InOrder(m, hi - 1);
      var last := if hi - 1 in m then [m[hi - 1]] else [];
      hide InOrder;
      assert (most + last)[..k] == most[..k];
      assert (most + last)[k + 1..] == most[k + 1..] + last;
      assert most[..k] + most[k + 1..] + last == most[..k] + (most[k + 1..] + last);
    }
  }

  /** A remover, by what it was made for: the push that gave out `id` after `epoch` drains. */
  datatype Ticket = Ticket(epoch: nat, id: nat)

  class Queue<T> {
    var nextId: nat
    var entries: map<nat, T>

    // How often the queue has been drained, and whose push each entry comes from.
    ghost var epoch: nat
    ghost var owner: map<nat, Ticket>

    ghost predicate Valid()
      reads this
    {
      && (forall k | k in entries :: k < nextId)
      && owner.Keys == entries.Keys
      && (forall k | k in owner :: owner[k] == Ticket(epoch, k))
    }

    /** What a drain would yield. */
    ghost function Items(): seq<T>
      reads this
    {
      InOrder(entries, nextId)
    }

    /** A ticket that some push has given out. */
    ghost predicate Issued(t: Ticket)
      reads this
    {
      t.epoch < epoch || (t.epoch == epoch && t.id < nextId)
    }

    constructor ()
      ensures Valid() && nextId == 0 && entries == map[] && epoch == 0 && Items() == []
    {
      nextId, entries, epoch, owner := 0, map[], 0, map[];
    }

    method Push(value: T) returns (id: nat, ghost t: Ticket)
      requires Valid()
      modifies this
      ensures Valid() && id == old(nextId) && nextId == id + 1 && entries == old(entries)[id := value]
      ensures epoch == old(epoch) && Issued(t) && owner == old(owner)[id := t] && t.id == id
      ensures Items() == old(Items()) + [value]
    {
      id := nextId;
      t := Ticket(epoch, id);
      InOrderSame(entries, entries[id := value], id);
      entries, owner := entries[id := value], owner[id := t];
      nextId := nextId + 1;
    }

    /** Drops a remover, on completion or together with the promise of a pushed value. It takes out a value
        that is not its own if and only if the queue has been drained since its push and its id is in use
        again. */
    method Remove(id: nat, ghost t: Ticket)
      requires Valid() && Issued(t) && t.id == id
      modifies this
      ensures Valid() && nextId == old(nextId) && epoch == old(epoch) && entries == old(entries) - {id}
      ensures id !in old(entries) ==> Items() == old(Items())
      ensures id in old(entries) ==>
        var all := old(Items()); var k := |InOrder(old(entries), id)|;
        k < |all| && all[k] == old(entries)[id] && Items() == all[..k] + all[k + 1..]
      ensures (exists k | k in old(owner) && k !in owner :: old(owner)[k] != t) <==>
        t.epoch < epoch && id in old(entries)
    {
      if id in entries {
        InOrderRemove(entries, id, nextId);
      } else {
        InOrderSame(entries, entries - {id}, nextId);
      }
      entries, owner := entries - {id}, owner - {id};
      assert id in old(entries) ==> id in old(owner) && id !in owner;
    }

    /** Empties the queue, yielding the values in the order they were pushed. The ids start over. */
    method Drain() returns (items: seq<T>)
      requires Valid()
      modifies this
      ensures Valid() && items == old(Items()) && entries == map[] && nextId == 0 && epoch == old(epoch) + 1
    {
      items := [];
      for k := 0 to nextId
        invariant items == InOrder(entries, k)
        invariant entries == old(entries) && nextId == old(nextId) && epoch == old(epoch)
      {
        if k in entries { items := items + [entries[k]]; }
      }
      nextId, entries, epoch, owner := 0, map[], epoch + 1, map[];
    }
  }

  /** The waiters of a promise client, as in capnp-rpc/src/rpc.rs: they are drained when the promise resolves, but
      asking to be told does not look whether it has. */
  class PromiseWaiters {
    const waiters: Queue<nat>
    var resolved: bool
    ghost var told: seq<nat>

    ghost predicate Valid()
      reads this, waiters
    {
      waiters.Valid() && waiters.epoch == (if resolved then 1 else 0) && (!resolved ==> told == [])
    }

    constructor ()
      ensures Valid() && fresh(waiters) && !resolved && told == [] && waiters.Items() == []
    {
      waiters := new Queue<nat>();
      resolved, told := false, [];
    }

    method WhenMoreResolved(waiter: nat) returns (id: nat, ghost t: Ticket)
      requires Valid()
      modifies waiters
      ensures Valid() && waiters.Issued(t) && t.id == id && t.epoch == waiters.epoch
      ensures waiters.Items() == old(waiters.Items()) + [waiter]
    {
      id, t := waiters.Push(waiter);
    }

    /** Resolves, once, and tells everyone who waits. */
    method Resolve()
      requires Valid() && !resolved
      modifies this, waiters
      ensures Valid() && resolved && told == old(waiters.Items()) && waiters.Items() == []
    {
      var items := waiters.Drain();
      told, resolved := items, true;
    }

    /** A waiter goes away, or has been told. Someone else's place is lost if and only if this one asked before
        the resolution and another asked after it and got the same id. */
    method Leave(id: nat, ghost t: Ticket)
      requires Valid() && waiters.Issued(t) && t.id == id
      modifies waiters
      ensures Valid()
      ensures (exists k | k in old(waiters.owner) && k !in waiters.owner :: old(waiters.owner)[k] != t)
        <==> resolved && t.epoch == 0 && id in old(waiters.entries)
    {
      waiters.Remove(id, t);
    }
  }

  /** The smallest case: the only value left is lost to a remover from before the drain. */
  method StaleRemoverHitsNewValue<T>(first: T, second: T) returns (left: seq<T>)
    ensures left == []
  {
    var q := new Queue<T>();
    var id, t := q.Push(first);
    var drained := q.Drain();
    var id2, t2 := q.Push(second);
    q.Remove(id, t);
    assert q.entries == map[];
    left := q.Drain();
  }
}
