/** The queueing pipeline of capnp-rpc/src/queued.rs: until the answer is there, each capability asked of it is a
    new client that collects its calls; then the clients are resolved one after the other, in the order in
    which they were asked for. */
module Pipelines {
  import opened Options

  /** A call, and the client of the pipeline on which it was made. */
  datatype Made<T> = Made(client: nat, call: T)

  function From<T>(made: seq<Made<T>>, k: nat): (r: seq<Made<T>>)
    ensures forall i | 0 <= i < |r| :: r[i].client == k
  {
    if made == [] then []
    else From(made[..|made| - 1], k) + if made[|made| - 1].client == k then [made[|made| - 1]] else []
  }

  /** The calls made, client by client. */
  function Grouped<T>(made: seq<Made<T>>, n: nat): seq<Made<T>> {
    if n == 0 then [] else Grouped(made, n - 1) + From(made, n - 1)
  }

  predicate Sorted<T>(made: seq<Made<T>>) {
    forall i, j | 0 <= i <= j < |made| :: made[i].client <= made[j].client
  }

  predicate Within<T>(made: seq<Made<T>>, n: nat) {
    forall i | 0 <= i < |made| :: made[i].client < n
  }

  lemma FromSnoc<T>(made: seq<Made<T>>, m: Made<T>, k: nat)
    ensures From(made + [m], k) == From(made, k) + if m.client == k then [m] else []
  {
    assert (made + [m])[..|made|] == made;
  }

  lemma {:induction false} GroupedSnoc<T>(made: seq<Made<T>>, m: Made<T>, n: nat)
    requires Within(made, m.client + 1)
    ensures Grouped(made + [m], n) == Grouped(made, n) + if m.client < n then [m] else []
  {
    hide From;
    if n == 0 {
    } else {
      var g, f := Grouped(made, n - 1), From(made, n - 1);
      GroupedSnoc(made, m, n - 1);
      FromSnoc(made, m, n - 1);
      if m.client < n - 1 {
        NoneFrom(made, n - 1);
        assert Grouped(made + [m], n) == (g + [m]) + [];
        assert Grouped(made, n) == g + [];
      } else if m.client == n - 1 {
        assert Grouped(made + [m], n) == (g + []) + (f + [m]) == (g + f) + [m];
      } else {
        assert Grouped(made + [m], n) == (g + []) + (f + []) == g + f;
      }
    }
  }

  lemma {:induction false} NoneFrom<T>(made: seq<Made<T>>, k: nat)
    requires forall i | 0 <= i < |made| :: made[i].client != k
    ensures From(made, k) == []
  {
    if made == [] {
    } else {
      NoneFrom(made[..|made| - 1], k);
    }
  }

  lemma {:induction false} GroupedIsSorted<T>(made: seq<Made<T>>, n: nat)
    ensures Sorted(Grouped(made, n)) && Within(Grouped(made, n), n)
  {
    if n == 0 {
    } else {
      GroupedIsSorted(made, n - 1);
    }
  }

  lemma {:induction false} SortedIsGrouped<T>(made: seq<Made<T>>, n: nat)
    requires Sorted(made) && Within(made, n)
    ensures Grouped(made, n) == made
  {
    hide Grouped, From;
    if made == [] {
      GroupedNone<T>(n);
    } else {
      var init, last := made[..|made| - 1], made[|made| - 1];
      SortedIsGrouped(init, n);
      GroupedSnoc(init, last, n);
      assert made == init + [last];
    }
  }

  lemma {:induction false} GroupedNone<T>(n: nat)
    ensures Grouped<T>([], n) == []
  {
    if n == 0 {
    } else {
      GroupedNone<T>(n - 1);
    }
  }

  /** Resolving the clients in turn keeps the order of the calls exactly when no call was made on a client after
      one on a newer client. */
  lemma OrderKeptIff<T>(made: seq<Made<T>>, n: nat)
    requires Within(made, n)
    ensures Grouped(made, n) == made <==> Sorted(made)
  {
    GroupedIsSorted(made, n);
    if Sorted(made) { SortedIsGrouped(made, n); }
  }

  function Tagged<T>(k: nat, calls: seq<T>): seq<Made<T>> {
    seq(|calls|, i requires 0 <= i < |calls| => Made(k, calls[i]))
  }

  /** Each client holds the calls made on it, in order. */
  ghost predicate Hold<T>(clients: seq<seq<T>>, made: seq<Made<T>>) {
    forall k: nat | k < |clients| :: Tagged(k, clients[k]) == From(made, k)
  }

  lemma HoldOneMore<T>(clients: seq<seq<T>>, made: seq<Made<T>>, k: nat, call: T)
    requires Hold(clients, made) && k < |clients|
    ensures Hold(clients[k := clients[k] + [call]], made + [Made(k, call)])
  {
    hide From;
    var more := clients[k := clients[k] + [call]];
    forall j: nat | j < |more| ensures Tagged(j, more[j]) == From(made + [Made(k, call)], j) {
      assert Tagged(j, clients[j]) == From(made, j);
      FromSnoc(made, Made(k, call), j);
      if j == k { assert Tagged(k, clients[k] + [call]) == Tagged(k, clients[k]) + [Made(k, call)]; }
    }
  }

  class Pipeline<T> {
    // There once the answer is.
    var redirect: bool
    // The calls that each client holds, in the order of the clients' creation.
    var clients: seq<seq<T>>
    // What has reached the answer's capabilities, in order.
    var forwarded: seq<Made<T>>
    // The calls made before the answer was there, and after.
    ghost var early: seq<Made<T>>
    ghost var late: seq<Made<T>>

    ghost predicate Valid()
      reads this
    {
      && Within(early, |clients|)
      && if redirect then forwarded == Grouped(early, |clients|) + late
         else
           && forwarded == [] && late == []
           && Hold(clients, early)
    }

    constructor ()
      ensures Valid() && !redirect && clients == [] && early == []
    {
      redirect, clients, forwarded, early, late := false, [], [], [], [];
    }

    /** A capability of the answer: a new client, or, once the answer is there, the capability itself. */
    method GetPipelinedCap() returns (client: Option<nat>)
      requires Valid()
      modifies this`clients
      ensures Valid() && (redirect ==> client == None && clients == old(clients))
      ensures !redirect ==> client == Some(|old(clients)|) && clients == old(clients) + [[]]
    {
      if redirect { return None; }
      client := Some(|clients|);
      NoneFrom(early, |clients|);
      clients := clients + [[]];
    }

    /** A call on a client that was handed out. */
    method Call(k: nat, call: T)
      requires Valid() && k < |clients|
      modifies this`clients, this`forwarded, this`early, this`late
      ensures Valid() && |clients| == |old(clients)|
      ensures !redirect ==> early == old(early) + [Made(k, call)] && late == old(late)
      ensures redirect ==> late == old(late) + [Made(k, call)] && early == old(early)
      ensures redirect ==> forwarded == old(forwarded) + [Made(k, call)]
    {
      hide Hold, Grouped;
      if redirect {
        forwarded := forwarded + [Made(k, call)];
        late := late + [Made(k, call)];
      } else {
        HoldOneMore(clients, early, k, call);
        clients := clients[k := clients[k] + [call]];
        early := early + [Made(k, call)];
      }
    }

    /** The answer is there: every client is resolved in turn, and what it holds is forwarded. */
    method Resolve()
      requires Valid() && !redirect
      modifies this`redirect, this`forwarded
      ensures Valid() && redirect && forwarded == Grouped(early, |clients|)
      ensures Sorted(early) <==> forwarded == early
    {
      hide From, Sorted, Within;
      redirect := true;
      for k := 0 to |clients|
        invariant redirect && forwarded == Grouped(early, k)
      {
        assert Tagged(k, clients[k]) == From(early, k);
        forwarded := forwarded + Tagged(k, clients[k]);
      }
      OrderKeptIff(early, |clients|);
      assert forwarded + [] == forwarded;
    }

    /** What an incoming call message does: it asks for the capability and calls it. */
    method Receive(call: T)
      requires Valid() && Sorted(early)
      modifies this`clients, this`forwarded, this`early, this`late
      ensures Valid() && Sorted(early)
      ensures !redirect ==> early == old(early) + [Made(|old(clients)|, call)] && late == old(late)
      ensures redirect ==> early == old(early) && clients == old(clients)
      ensures redirect ==> forwarded == old(forwarded) + [Made(|clients|, call)]
    {
      var client := GetPipelinedCap();
      if client.Some? {
        Call(client.value, call);
      } else {
        forwarded := forwarded + [Made(|clients|, call)];
        late := late + [Made(|clients|, call)];
      }
    }
  }

  /** The calls of a log, in order. */
  predicate Carries<T(==)>(log: seq<Made<T>>, calls: seq<T>) {
    |log| == |calls| && forall i | 0 <= i < |calls| :: log[i].call == calls[i]
  }

  /** Calls that come in as messages for one answer are passed on in the order in which they came, wherever among
      them the answer comes. */
  method ReceiveAll<T(==)>(calls: seq<T>, answerAt: nat) returns (p: Pipeline<T>)
    requires answerAt <= |calls|
    ensures fresh(p) && p.Valid() && p.redirect && Carries(p.forwarded, calls)
  {
    hide Grouped, Hold, Within;
    p := new Pipeline<T>();
    for i := 0 to answerAt
      invariant p.Valid() && !p.redirect && Sorted(p.early) && Carries(p.early, calls[..i])
    {
      p.Receive(calls[i]);
    }
    p.Resolve();
    for i := answerAt to |calls|
      invariant p.Valid() && p.redirect && Sorted(p.early) && Carries(p.forwarded, calls[..i])
    {
      p.Receive(calls[i]);
    }
    assert calls[..|calls|] == calls;
  }
}
