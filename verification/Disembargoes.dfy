/** The round trip of a `Disembargo` in `Embargo` is what the vats of `Rpc` do: step by step, the same ids are taken
    and freed, and the same messages are sent and scheduled. */
module Disembargoes {
  import opened IdTable
  import opened Rpc
  import opened Naming
  import E = Embargo

  /** The same embargo ids are in use. */
  ghost predicate SameIds(v: Vat, s: E.State) {
    forall id: nat :: Has(v.embargoes, id) <==> Has(s.embargoes, id)
  }

  /** The same loopbacks are scheduled, in the same order. */
  predicate SameTasks(v: Vat, s: E.State) {
    |v.loopbacks| == |s.tasks| && forall k | 0 <= k < |s.tasks| :: v.loopbacks[k].embargo == s.tasks[k].id
  }

  lemma PutHas<T>(slots: Slots<T>, value: T, id: nat)
    ensures Has(Put(slots, value), id) <==> Has(slots, id) || id == NextId(slots)
  {
    hide NextId;
  }

  lemma SameNext(v: Vat, s: E.State)
    requires SameIds(v, s)
    ensures NextId(v.embargoes) == NextId(s.embargoes)
  {
    var m, n := NextId(v.embargoes), NextId(s.embargoes);
    hide NextId;
    assert !Has(s.embargoes, m) && !Has(v.embargoes, n);
  }

  /** What an embargo on `target` sends, if it sends anything: the `Disembargo` that `Embargo` sends. */
  predicate SameLoops(out: seq<Msg>, target: Target, loops: seq<E.Out>) {
    && |out| == |loops|
    && forall k | 0 <= k < |out| :: loops[k].Loop? && out[k] == Disembargo(target, SenderLoopback(loops[k].id))
  }

  lemma ResolvedGrows(s: E.State)
    requires E.Enabled(s, E.TakeBack) && s.back[0].Resolved?
    ensures var t, p := E.Do(s, E.TakeBack), s.back[0].p;
      t.out == s.out + if s.clients[p].called then [E.Loop(p, NextId(s.embargoes))] else []
  {
    hide NextId;
  }

  /** A `Resolve` of import `i` to something on this side is the step `Resolved` of the promise. */
  lemma ResolveIsResolved(v: Vat, i: nat, resolution: Resolution, s: E.State)
    requires LocalOk(v) && i in v.imports && v.imports[i].promise && LeadsHere(v, resolution)
    requires E.Enabled(s, E.TakeBack) && s.back[0].Resolved? && SameIds(v, s)
    ensures var called := s.clients[s.back[0].p].called;
      var r, t := HandleResolve(v, i, resolution, called), E.Do(s, E.TakeBack);
      && r.Ok? && SameIds(r.vat, t)
      && |s.out| <= |t.out| && SameLoops(r.out, ImportedCap(i), t.out[|s.out|..])
  {
    hide LocalOk, NextId;
    SameNext(v, s);
    ResolvedGrows(s);
    var called := s.clients[s.back[0].p].called;
    ResolveEmbargoes(v, i, resolution, called);
  }

  /** So is an embargo on a pipelined client, when the `Return` has come. */
  lemma ReturnIsResolved(v: Vat, q: nat, i: nat, s: E.State)
    requires LocalOk(v) && Enabled(v, EmbargoAnswer(q, i)) && SameIds(v, s)
    requires E.Enabled(s, E.TakeBack) && s.back[0].Resolved? && s.clients[s.back[0].p].called
    ensures var r, t := Do(v, EmbargoAnswer(q, i)), E.Do(s, E.TakeBack);
      && SameIds(r.0, t)
      && |s.out| <= |t.out| && SameLoops([r.1], PromisedAnswer(q), t.out[|s.out|..])
  {
    hide LocalOk, NextId;
    SameNext(v, s);
    ResolvedGrows(s);
    var w, t := Do(v, EmbargoAnswer(q, i)).0, E.Do(s, E.TakeBack);
    forall id: nat ensures Has(w.embargoes, id) <==> Has(t.embargoes, id) {
      PutHas(v.embargoes, Embargo, id);
      PutHas(s.embargoes, s.back[0].p, id);
    }
  }

  /** A `senderLoopback` that comes in is the step by which the peer schedules its answer. */
  lemma LoopIsScheduled(v: Vat, target: Target, leads: Hook, s: E.State)
    requires E.Enabled(s, E.TakeOut) && s.out[0].Loop? && SameTasks(v, s)
    requires LocalOk(v) && HandleDisembargo(v, target, SenderLoopback(s.out[0].id), leads).Ok?
    ensures SameTasks(HandleDisembargo(v, target, SenderLoopback(s.out[0].id), leads).vat, E.Do(s, E.TakeOut))
  {
    hide LocalOk;
  }

  /** Answering it sends the echo. */
  lemma LoopbackIsEcho(v: Vat, k: nat, s: E.State)
    requires LocalOk(v) && Enabled(v, RunLoopback(k)) && SameTasks(v, s)
    ensures k < |s.tasks|
    ensures var (w, m) := Do(v, RunLoopback(k));
      var t := E.Do(s, E.RunTask(k));
      && SameTasks(w, t) && t.back == s.back + [E.Echo(s.tasks[k].p, s.tasks[k].id)]
      && m.Disembargo? && m.context == ReceiverLoopback(s.tasks[k].id)
  {
    hide LocalOk;
  }

  /** And the echo frees the id. */
  lemma EchoFrees(v: Vat, target: Target, leads: Hook, s: E.State)
    requires LocalOk(v) && E.Enabled(s, E.TakeBack) && s.back[0].Echo? && SameIds(v, s)
    ensures var r := HandleDisembargo(v, target, ReceiverLoopback(s.back[0].id), leads);
      r.Ok? && r.out == [] && SameIds(r.vat, E.Do(s, E.TakeBack))
  {
    hide LocalOk;
    assert Has(v.embargoes, s.back[0].id);
    DisembargoDoes(v, target, ReceiverLoopback(s.back[0].id), leads);
  }
}
