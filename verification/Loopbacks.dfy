/** Where a `senderLoopback` ends up. A vat puts an embargo on an import only when a `Resolve` tells it that the
    promise leads back to it; so when its `Disembargo` arrives, the export named there does lead back. */
module Loopbacks {
  import opened Options
  import opened IdTable
  import opened Rpc
  import opened Traffic
  import opened PeerView
  import opened VatSteps
  import opened TwoVats
  import opened RpcRuns

  /** An export that has settled on something of the peer's: one of its exports, or one of its answers. */
  predicate LeadsBack(v: Vat, e: nat) {
    Has(v.exports, e) && !v.exports[e].value.resolving && !IsLocal(v.exports[e].value.hook)
  }

  /** A `Resolve` that says so. */
  predicate ResolvesBack(m: Msg, e: nat) {
    && m.Resolve? && m.promiseId == e && m.resolution.ToCap?
    && (m.resolution.desc.ReceiverHosted? || m.resolution.desc.ReceiverAnswer?)
  }

  predicate LoopsTo(m: Msg, e: nat) {
    m.Disembargo? && m.target == ImportedCap(e) && m.context.SenderLoopback?
  }

  // ------------------------------------------------------------ messages in flight

  /** Every `Resolve` in the queue that will meet an import says the truth about the export of that id now. */
  predicate Foretold(e: nat, ms: seq<Msg>, refs: nat, held: set<nat>, back: bool) {
    ms != [] ==>
      && (ResolvesBack(ms[0], e) && refs > 0 ==> back)
      && Foretold(e, ms[1..], refs + Weigh(ms[0], Refs(e, held)), held, back)
  }

  lemma {:induction false} ForetoldSnoc(e: nat, ms: seq<Msg>, m: Msg, refs: nat, held: set<nat>, back: bool)
    requires Foretold(e, ms, refs, held, back)
    requires ResolvesBack(m, e) && refs + Sum(ms, Refs(e, held)) > 0 ==> back
    ensures Foretold(e, ms + [m], refs, held, back)
  {
    hide ResolvesBack, Weigh;
    if ms == [] {
      assert (ms + [m])[1..] == [];
    } else {
      assert (ms + [m])[1..] == ms[1..] + [m];
      ForetoldSnoc(e, ms[1..], m, refs + Weigh(ms[0], Refs(e, held)), held, back);
    }
  }

  /** It stays so when the receiver holds less, and when the export starts to lead back. */
  lemma {:induction false} ForetoldLess(
      e: nat, ms: seq<Msg>, refs: nat, held: set<nat>, back: bool, refs': nat, held': set<nat>, back': bool)
    requires Foretold(e, ms, refs, held, back) && refs' <= refs && (back ==> back')
    requires forall q | q in held' :: q in held || Sum(ms, Rets(q)) == 0
    ensures Foretold(e, ms, refs', held', back')
  {
    if ms == [] {
    } else {
      assert forall q: nat :: Sum(ms, Rets(q)) >= Sum(ms[1..], Rets(q));
      assert ms[0].Return? && ms[0].answer in held' ==> ms[0].answer in held by {
        if ms[0].Return? { assert Sum(ms, Rets(ms[0].answer)) > 0; }
      }
      hide ResolvesBack;
      ForetoldLess(e, ms[1..], refs + Weigh(ms[0], Refs(e, held)), held, back,
                   refs' + Weigh(ms[0], Refs(e, held')), held', back');
    }
  }

  /** With no reference anywhere no `Resolve` will meet an import. */
  lemma {:induction false} ForetoldNothing(e: nat, ms: seq<Msg>, held: set<nat>, back: bool)
    requires Sum(ms, Refs(e, held)) == 0
    ensures Foretold(e, ms, 0, held, back)
  {
    if ms == [] {
    } else {
      ForetoldNothing(e, ms[1..], held, back);
    }
  }

  // ------------------------------------------------------------- one vat's steps

  /** What sending does to exports that lead back. */
  ghost predicate HookSends(v: Vat, w: Vat, m: Msg) {
    && (forall e: nat :: LeadsBack(v, e) ==> LeadsBack(w, e))
    && (forall e: nat :: ResolvesBack(m, e) ==> LeadsBack(w, e))
  }

  /** What receiving does: they may go, but do not change. */
  ghost predicate HookGets(v: Vat, w: Vat) {
    forall e: nat :: LeadsBack(v, e) && Has(w.exports, e) ==> LeadsBack(w, e)
  }

  ghost predicate NoLoop(m: Msg) {
    forall e: nat :: !LoopsTo(m, e)
  }

  lemma WriteKeepsHooks(v: Vat, hook: Hook)
    requires LocalOk(v)
    ensures forall e: nat :: LeadsBack(v, e) ==> LeadsBack(WriteDescriptor(v, hook).vat, e)
  {
    hide NextId;
  }

  lemma {:induction false} WriteAllKeepsHooks(v: Vat, caps: seq<Option<Hook>>)
    requires LocalOk(v)
    ensures forall e: nat :: LeadsBack(v, e) ==> LeadsBack(WriteDescriptors(v, caps).vat, e)
  {
    hide LocalOk, WriteDescriptor, LeadsBack;
    if caps == [] {
    } else {
      var n := |caps| - 1;
      WriteAllKeepsHooks(v, caps[..n]);
      if caps[n].Some? { WriteKeepsHooks(WriteDescriptors(v, caps[..n]).vat, caps[n].value); }
    }
  }

  lemma SameHooks(v: Vat, w: Vat)
    requires w.exports == v.exports
    ensures forall e: nat :: LeadsBack(v, e) == LeadsBack(w, e)
  {
  }

  lemma RespondHooks(v: Vat, q: nat, results: Option<seq<Option<Hook>>>)
    requires LocalOk(v) && q in v.answers && q !in v.running
    ensures var r := Respond(v, q, results); HookSends(v, r.0, r.1) && NoLoop(r.1)
  {
    hide LocalOk, WriteDescriptors, LeadsBack;
    var r := Respond(v, q, results);
    if v.answers[q].finished || results.None? {
      SameHooks(v, r.0);
    } else {
      WriteAllKeepsHooks(v, results.value);
      SameHooks(WriteDescriptors(v, results.value).vat, r.0);
    }
  }

  lemma ResolveHooks(v: Vat, e: nat, resolution: Option<Hook>)
    requires LocalOk(v) && Enabled(v, ResolveExport(e, resolution))
    ensures var r := Do(v, ResolveExport(e, resolution)); HookSends(v, r.0, r.1) && NoLoop(r.1)
  {
    if resolution.Some? {
      var hook := resolution.value;
      RepointOk(v, e, hook);
      var x := Repoint(v, e, hook);
      assert forall k: nat :: LeadsBack(v, k) ==> LeadsBack(x, k);
      assert !IsLocal(hook) ==> LeadsBack(x, e);
      WriteKeepsHooks(x, hook);
      BackDescriptor(x, hook);
      hide Repoint, WriteDescriptor, LocalOk, LeadsBack;
    }
  }

  lemma BackDescriptor(v: Vat, hook: Hook)
    requires LocalOk(v)
    ensures var d := WriteDescriptor(v, hook).desc; IsLocal(hook) <==> !(d.ReceiverHosted? || d.ReceiverAnswer?)
  {
    hide LocalOk, NextId;
  }

  lemma DoHooks(v: Vat, a: Action)
    requires LocalOk(v) && Enabled(v, a)
    ensures var r := Do(v, a); HookSends(v, r.0, r.1) && NoLoop(r.1)
  {
    hide QuestionsOk, AnswersOk, ExportsOk, ImportsOk, ByCapOk;
    hide WriteDescriptors, WriteDescriptor, LeadsBack, NextId, Respond;
    var r := Do(v, a);
    match a
    case SendCall(_, caps) =>
      WriteAllKeepsHooks(v, caps);
      SameHooks(WriteDescriptors(v, caps).vat, r.0);
    case SendReturn(q, results) =>
      SameHooks(v, EndCall(v, q));
      RespondHooks(EndCall(v, q), q, results);
    case ResolveExport(e, resolution) => ResolveHooks(v, e, resolution);
    case _ => SameHooks(v, r.0);
  }

  lemma ReleaseHooks(v: Vat, id: nat, count: nat)
    ensures var r := ReleaseExport(v, id, count); r.Some? ==> HookGets(v, r.value)
    ensures var r := ReleaseExport(v, id, count);
      r.Some? ==> forall e: nat :: Has(r.value.exports, e) ==> Has(v.exports, e)
  {
  }

  lemma {:induction false} ReleaseAllHooks(v: Vat, ids: seq<nat>)
    ensures var r := ReleaseExports(v, ids); r.Some? ==> HookGets(v, r.value)
    ensures var r := ReleaseExports(v, ids);
      r.Some? ==> forall e: nat :: Has(r.value.exports, e) ==> Has(v.exports, e)
  {
    if ids == [] {
    } else {
      ReleaseAllHooks(v, ids[..|ids| - 1]);
      var r := ReleaseExports(v, ids[..|ids| - 1]);
      if r.Some? { ReleaseHooks(r.value, ids[|ids| - 1], 1); }
      hide ReleaseExport, LeadsBack;
    }
  }

  lemma FinishHooks(v: Vat, q: nat, release: bool)
    requires LocalOk(v)
    ensures var r := HandleFinish(v, q, release); r.Ok? ==> r.out == [] && HookGets(v, r.vat)
  {
    hide LocalOk, ReleaseExports, LeadsBack;
    if q in v.answers {
      var a := v.answers[q];
      var w := CloseAnswer(v, q, release);
      SameHooks(v, w);
      ReleaseAllHooks(w, if release then a.resultExports else []);
    }
  }

  /** Taking in a message, and replying to it: a `Disembargo` to an import answers only a `Resolve` that said that the
      promise leads back. */
  lemma HandleHooks(v: Vat, m: Msg, called: bool, leads: Hook, mid: Vat)
    requires LocalOk(v) && LocalOk(mid) && Ready(v, m)
    requires var r := Handle(v, m, called, leads); r.Ok? && Taken(v, m, r.vat, mid)
    ensures HookGets(v, mid)
    ensures var r := Handle(v, m, called, leads);
      r.out == [] ||
      (&& |r.out| == 1 && HookSends(mid, r.vat, r.out[0])
       && forall e: nat :: LoopsTo(r.out[0], e) ==> ResolvesBack(m, e) && ImportRefs(v, e) > 0)
  {
    if m.Call? || m.Return? || m.Disembargo? { ExportsUntouched(v, m, called, leads); }
    if m.Call? || m.Return? || m.Disembargo? { RepliesNothing(v, m, called, leads); }
    hide LocalOk, LeadsBack, Respond, WriteDescriptors, Uses, Reaches, PromiseIsFirst;
    hide HandleCall, HandleReturn, HandleFinish, HandleDisembargo, HandleResolve;
    var r := Handle(v, m, called, leads);
    match m
    case Bootstrap(q) =>
      NotRunning(v, q);
      SameHooks(v, mid);
      RespondHooks(mid, q, Some([Some(v.boot)]));
    case Call(_, _, _) => SameHooks(v, mid);
    case Return(_, _) => SameHooks(v, mid);
    case Finish(q, release) => FinishHooks(v, q, release);
    case Resolve(p, resolution) => ResolvedHooks(v, p, resolution, called);
    case Release(id, count) => ReleaseHooks(v, id, count);
    case Disembargo(_, _) => SameHooks(v, mid);
  }

  lemma RepliesNothing(v: Vat, m: Msg, called: bool, leads: Hook)
    requires LocalOk(v) && Ready(v, m) && (m.Call? || m.Return? || m.Disembargo?)
    ensures var r := Handle(v, m, called, leads); r.Ok? ==> r.out == []
  {
    hide LocalOk, ReceiveCaps, ReceivedAll, Uses, Reaches, PromiseIsFirst;
    if m.Call? { ReceiveCapsOk(v, m.caps); }
  }

  lemma ResolvedHooks(v: Vat, p: nat, resolution: Resolution, called: bool)
    requires LocalOk(v) && HandleResolve(v, p, resolution, called).Ok?
    ensures var r := HandleResolve(v, p, resolution, called);
      var mid := r.vat.(embargoes := v.embargoes);
      && HookGets(v, mid)
      && (r.out == [] ||
          (&& |r.out| == 1 && HookSends(mid, r.vat, r.out[0])
           && forall e: nat ::
                LoopsTo(r.out[0], e) ==> ResolvesBack(Resolve(p, resolution), e) && ImportRefs(v, e) > 0))
  {
    hide NextId, Put, QuestionsOk, AnswersOk, ExportsOk, ByCapOk, RunningOk;
    var r := HandleResolve(v, p, resolution, called);
    SameHooks(v, r.vat);
    SameHooks(v, r.vat.(embargoes := v.embargoes));
    hide LeadsBack;
  }

  // ------------------------------------------------------------ over the connection

  /** Between the importer `a` and the exporter `b`: whoever will be told, or has asked for a loopback, is right
      about export `e`. */
  ghost predicate LoopOk(a: Vat, b: Vat, ab: seq<Msg>, ba: seq<Msg>, e: nat) {
    && Foretold(e, ba, ImportRefs(a, e), Held(a), LeadsBack(b, e))
    && (forall k | 0 <= k < |ab| && LoopsTo(ab[k], e) :: LeadsBack(b, e))
  }

  ghost predicate LoopsOk(a: Vat, b: Vat, ab: seq<Msg>, ba: seq<Msg>) {
    forall e: nat :: LoopOk(a, b, ab, ba, e)
  }

  lemma AskerSendsLoops(a: Vat, a': Vat, b: Vat, ab: seq<Msg>, ba: seq<Msg>, m: Msg)
    requires Half(a, b, ab, ba) && AskerSends(a, a', m) && LoopsOk(a, b, ab, ba)
    requires forall e: nat :: LoopsTo(m, e) ==> LeadsBack(b, e)
    ensures LoopsOk(a', b, ab + [m], ba)
  {
    forall q | q in Held(a') ensures q in Held(a) || Sum(ba, Rets(q)) == 0 {
      assert QuestionOk(a, b, ab, ba, q);
    }
    assert forall e: nat :: ImportRefs(a', e) <= ImportRefs(a, e);
    hide Half, AskerSends, Held, LeadsBack, LoopsTo, Foretold, ImportRefs;
    forall e: nat ensures LoopOk(a', b, ab + [m], ba, e) {
      assert LoopOk(a, b, ab, ba, e);
      ForetoldLess(e, ba, ImportRefs(a, e), Held(a), LeadsBack(b, e), ImportRefs(a', e), Held(a'), LeadsBack(b, e));
    }
  }

  lemma AnswererSendsLoops(a: Vat, b: Vat, b': Vat, ab: seq<Msg>, ba: seq<Msg>, m: Msg)
    requires HookSends(b, b', m) && LoopsOk(a, b, ab, ba)
    ensures LoopsOk(a, b', ab, ba + [m])
  {
    hide Held, LeadsBack, LoopsTo, Foretold, ImportRefs, ResolvesBack;
    forall e: nat ensures LoopOk(a, b', ab, ba + [m], e) {
      assert LoopOk(a, b, ab, ba, e);
      ForetoldLess(e, ba, ImportRefs(a, e), Held(a), LeadsBack(b, e), ImportRefs(a, e), Held(a), LeadsBack(b', e));
      ForetoldSnoc(e, ba, m, ImportRefs(a, e), Held(a), LeadsBack(b', e));
    }
  }

  lemma AskerGetsLoops(a: Vat, a': Vat, b: Vat, ab: seq<Msg>, ba: seq<Msg>)
    requires ba != [] && AskerGets(a, a', ba[0]) && LoopsOk(a, b, ab, ba)
    ensures LoopsOk(a', b, ab, ba[1..])
  {
    assert Held(a') == Held(a);
    hide LeadsBack, LoopsTo, ResolvesBack, Held;
    forall e: nat ensures LoopOk(a', b, ab, ba[1..], e) {
      assert LoopOk(a, b, ab, ba, e);
    }
  }

  /** An export that goes has no reference anywhere, so nobody will ask about it. */
  lemma AnswererGetsLoops(a: Vat, b: Vat, b': Vat, ab: seq<Msg>, ba: seq<Msg>)
    requires ab != [] && HookGets(b, b') && LoopsOk(a, b, ab, ba) && LocalOk(b') && Half(a, b', ab[1..], ba)
    ensures LoopsOk(a, b', ab[1..], ba)
  {
    forall e: nat ensures LoopOk(a, b', ab[1..], ba, e) {
      assert LoopOk(a, b, ab, ba, e);
      if Has(b'.exports, e) {
        KeptLoop(a, b, b', ab, ba, e);
      } else {
        assert Balanced(a, b', ab[1..], ba, e) && Backed(ImportRefs(a, e), ab[1..], e);
        GoneLoop(a, b', ab[1..], ba, e);
      }
    }
  }

  lemma KeptLoop(a: Vat, b: Vat, b': Vat, ab: seq<Msg>, ba: seq<Msg>, e: nat)
    requires ab != [] && LoopOk(a, b, ab, ba, e) && (LeadsBack(b, e) ==> LeadsBack(b', e))
    ensures LoopOk(a, b', ab[1..], ba, e)
  {
    hide Held, LeadsBack, LoopsTo, Foretold, ImportRefs;
    ForetoldLess(e, ba, ImportRefs(a, e), Held(a), LeadsBack(b, e), ImportRefs(a, e), Held(a), LeadsBack(b', e));
  }

  lemma GoneLoop(a: Vat, b: Vat, ab: seq<Msg>, ba: seq<Msg>, e: nat)
    requires !Has(b.exports, e) && Balanced(a, b, ab, ba, e) && Backed(ImportRefs(a, e), ab, e)
    ensures LoopOk(a, b, ab, ba, e)
  {
    assert RefCount(b, e) == 0;
    ForetoldNothing(e, ba, Held(a), LeadsBack(b, e));
    forall k | 0 <= k < |ab| ensures !LoopsTo(ab[k], e) {
      if LoopsTo(ab[k], e) {
        assert Uses(ab[k], ImportedCap(e));
        SumOfRest(ab, k + 1, Releases(e));
        assert false;
      }
    }
  }

  lemma {:induction false} SumOfRest(ms: seq<Msg>, k: nat, w: Weight)
    requires k <= |ms|
    ensures Sum(ms[k..], w) <= Sum(ms, w)
  {
    if k == 0 {
      assert ms[0..] == ms;
    } else {
      SumOfRest(ms[1..], k - 1, w);
      assert ms[1..][k - 1..] == ms[k..];
    }
  }

  ghost predicate LoopInv(s: System) {
    && Inv(s)
    && LoopsOk(s.left, s.right, s.toRight, s.toLeft)
    && LoopsOk(s.right, s.left, s.toLeft, s.toRight)
  }

  lemma SendLoops(s: System, w: Vat, m: Msg)
    requires LoopInv(s) && Sends(s.left, w, m) && HookSends(s.left, w, m)
    requires forall e: nat :: LoopsTo(m, e) ==> LeadsBack(s.right, e)
    ensures LoopInv(s.(left := w, toRight := s.toRight + [m]))
  {
    hide LocalOk, Half, LoopsOk, HookSends, AskerSends, AnswererSends, LeadsBack, LoopsTo, WellFormed;
    SendInv(s, w, m);
    AskerSendsLoops(s.left, w, s.right, s.toRight, s.toLeft, m);
    AnswererSendsLoops(s.right, s.left, w, s.toLeft, s.toRight, m);
  }

  lemma ReceiveLoops(s: System, w: Vat)
    requires LoopInv(s) && s.toLeft != [] && Gets(s.left, w, s.toLeft[0]) && HookGets(s.left, w)
    ensures LoopInv(s.(left := w, toLeft := s.toLeft[1..]))
  {
    hide LocalOk, Half, LoopsOk, HookGets, AskerGets, AnswererGets;
    ReceiveInv(s, w);
    AskerGetsLoops(s.left, w, s.right, s.toRight, s.toLeft);
    AnswererGetsLoops(s.right, s.left, w, s.toLeft, s.toRight);
  }

  /** The `Resolve` just taken in was right about the export. */
  lemma ToldTheTruth(s: System, e: nat)
    requires LoopInv(s) && s.toLeft != [] && ResolvesBack(s.toLeft[0], e) && ImportRefs(s.left, e) > 0
    ensures LeadsBack(s.right, e)
  {
    hide Inv;
    assert LoopOk(s.left, s.right, s.toRight, s.toLeft, e);
  }

  lemma LeftStepLoops(s: System, event: Event, t: System)
    requires LoopInv(s) && LeftStep(s, event, t)
    ensures LoopInv(t)
  {
    hide LoopInv, Inv, HookSends, HookGets, LocalOk, Half, Ready, Handle, Do, Taken, Sends, Gets;
    hide LoopsTo, LeadsBack, ResolvesBack, ImportRefs;
    assert Inv(s) by { LoopInvParts(s); }
    InvParts(s);
    match event
    case Act(a) =>
      DoSends(s.left, a);
      DoHooks(s.left, a);
      SendLoops(s, Do(s.left, a).0, Do(s.left, a).1);
    case Receive(called, leads) =>
      NextIsReady(s.right, s.left, s.toLeft, s.toRight);
      var m := s.toLeft[0];
      var mid := HandleGets(s.left, m, called, leads);
      var r := Handle(s.left, m, called, leads);
      assert LocalOk(mid) by { GetsOk(s.left, mid, m); }
      HandleHooks(s.left, m, called, leads, mid);
      ReceiveLoops(s, mid);
      var x := s.(left := mid, toLeft := s.toLeft[1..]);
      if r.out == [] {
        assert s.toRight + [] == s.toRight;
      } else {
        forall e: nat | LoopsTo(r.out[0], e) ensures LeadsBack(x.right, e) { ToldTheTruth(s, e); }
        SendLoops(x, r.vat, r.out[0]);
        assert r.out == [r.out[0]];
      }
  }

  lemma GetsOk(v: Vat, w: Vat, m: Msg)
    requires Gets(v, w, m)
    ensures LocalOk(w)
  {
  }

  lemma LoopInvParts(s: System)
    requires LoopInv(s)
    ensures Inv(s) && LoopInv(Mirror(s))
  {
    hide Inv, LoopsOk;
    InvParts(s);
  }

  lemma StepLoops(s: System, t: System)
    requires LoopInv(s) && Step(s, t)
    ensures LoopInv(t)
  {
    hide LoopInv, LeftStep;
    LoopInvParts(s);
    var event: Event :| LeftStep(s, event, t) || LeftStep(Mirror(s), event, Mirror(t));
    if LeftStep(s, event, t) {
      LeftStepLoops(s, event, t);
    } else {
      LeftStepLoops(Mirror(s), event, Mirror(t));
      LoopInvParts(Mirror(t));
    }
  }

  lemma NewLoops(a: Vat, b: Vat)
    ensures LoopsOk(a, b, [], [])
  {
  }

  lemma {:induction false} RunLoops(states: seq<System>, k: nat)
    requires Run(states) && k < |states|
    ensures LoopInv(states[k])
  {
    hide Inv, Step, LoopsOk, New;
    if k == 0 {
      InitInv(states[0]);
      NewLoops(states[0].left, states[0].right);
      NewLoops(states[0].right, states[0].left);
    } else {
      RunLoops(states, k - 1);
      StepLoops(states[k - 1], states[k]);
    }
  }

  lemma ReachableLoops(s: System)
    requires Reachable(s)
    ensures LoopInv(s)
  {
    hide LoopInv;
    var states: seq<System> :| Run(states) && s == states[|states| - 1];
    RunLoops(states, |states| - 1);
  }

  /** In every reachable state a `senderLoopback` to an import meets an export whose own hook is an import or a
      pipelined answer of the vat that gets it. */
  lemma LoopbackLeadsBack(s: System, e: nat)
    requires Reachable(s) && s.toLeft != [] && LoopsTo(s.toLeft[0], e)
    ensures LeadsBack(s.left, e)
  {
    hide Inv, Reachable;
    ReachableLoops(s);
    assert LoopOk(s.right, s.left, s.toLeft, s.toRight, e);
  }

  /** So if nothing that leads back has meanwhile turned out to be local, a message can be refused for one reason
      only: it is a `Resolve` for an import that is not a promise. */
  lemma OneErrorLeft(s: System, called: bool, leads: Hook)
    requires Reachable(s) && s.toLeft != [] && !IsLocal(leads)
    ensures LocalOk(s.left)
    ensures var r := Handle(s.left, s.toLeft[0], called, leads);
      r.Err? ==> s.toLeft[0].Resolve? && r.error == ResolveOfNonPromise
  {
    hide Reachable, LocalOk, HandleBootstrap, HandleCall, HandleReturn, HandleFinish, HandleResolve, HandleRelease;
    OnlyTwoErrors(s, called, leads);
    var m := s.toLeft[0];
    if m.Disembargo? && m.target.ImportedCap? && m.context.SenderLoopback? {
      LoopbackLeadsBack(s, m.target.id);
    }
  }
}
