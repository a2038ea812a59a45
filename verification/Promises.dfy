/** Resolving exported promises. A promise that has been exported is announced once as `senderPromise`; exported
    again before it resolves it goes out as `senderHosted`, which can leave the peer with an import that is not
    a promise when the `Resolve` comes. That is exactly what makes a `Resolve` fail: as long as the exporter does not
    do it, every `Resolve` finds a promise or nothing, and once it has, one can be refused. */
module Promises {
  import opened Options
  import opened IdTable
  import opened Rpc
  import opened Traffic
  import opened PeerView
  import opened VatSteps
  import opened TwoVats
  import opened RpcRuns
  import opened Loopbacks

  predicate Resolving(v: Vat, e: nat) {
    Has(v.exports, e) && v.exports[e].value.resolving
  }

  /** The receiver, whose referenced questions are `held`, takes in the capabilities of the message. */
  predicate Imports(m: Msg, held: set<nat>) {
    m.Return? ==> m.answer in held
  }

  /** The message mentions export `e` to a receiver that takes it in, and not as the promise it is. */
  predicate PassesOff(v: Vat, m: Msg, held: set<nat>, e: nat) {
    Imports(m, held) && SenderHosted(e) in Caps(m) && SenderPromise(e) !in Caps(m) && Resolving(v, e)
  }

  /** The message does not pass off an unresolved promise as settled. */
  ghost predicate Fair(v: Vat, m: Msg, held: set<nat>) {
    forall e: nat :: !PassesOff(v, m, held, e)
  }

  // -------------------------------------------------- what an importer knows of an export

  datatype Known = Absent | AsPromise | Plain

  function KnownAs(v: Vat, e: nat): Known {
    if e !in v.imports then Absent else if v.imports[e].promise then AsPromise else Plain
  }

  /** `Plain` is the worst to know when a `Resolve` comes, `Absent` the best. */
  predicate Below(x: Known, y: Known) {
    x == y || x == Absent || y == Plain
  }

  /** What the importer knows once it has taken in the capabilities of a message, at worst. */
  function Learns(e: nat, m: Msg, held: set<nat>, k: Known): Known {
    if !Imports(m, held) then k
    else if SenderPromise(e) in Caps(m) then (if k == Absent then AsPromise else k)
    else if SenderHosted(e) in Caps(m) then Plain
    else k
  }

  predicate Resolves(m: Msg, e: nat) {
    m.Resolve? && m.promiseId == e
  }

  function NextKnown(e: nat, m: Msg, held: set<nat>, k: Known): Known {
    var l := Learns(e, m, held, k);
    if Resolves(m, e) && l == AsPromise then Plain else l
  }

  predicate Resolvable(e: nat, ms: seq<Msg>, held: set<nat>, k: Known) {
    ms != [] ==>
      && (Resolves(ms[0], e) ==> Learns(e, ms[0], held, k) != Plain)
      && Resolvable(e, ms[1..], held, NextKnown(e, ms[0], held, k))
  }

  function FinallyKnown(e: nat, ms: seq<Msg>, held: set<nat>, k: Known): Known {
    if ms == [] then k else FinallyKnown(e, ms[1..], held, NextKnown(e, ms[0], held, k))
  }

  lemma {:induction false} ResolvableSnoc(e: nat, ms: seq<Msg>, m: Msg, held: set<nat>, k: Known)
    ensures Resolvable(e, ms + [m], held, k) <==>
      Resolvable(e, ms, held, k) && (Resolves(m, e) ==> Learns(e, m, held, FinallyKnown(e, ms, held, k)) != Plain)
    ensures FinallyKnown(e, ms + [m], held, k) == NextKnown(e, m, held, FinallyKnown(e, ms, held, k))
  {
    hide Learns, NextKnown, Resolves;
    if ms == [] {
      assert (ms + [m])[1..] == [];
    } else {
      assert (ms + [m])[1..] == ms[1..] + [m];
      ResolvableSnoc(e, ms[1..], m, held, NextKnown(e, ms[0], held, k));
    }
  }

  /** Knowing less, and importing less, does no harm. */
  lemma {:induction false} ResolvableLess(e: nat, ms: seq<Msg>, held: set<nat>, k: Known, held': set<nat>, k': Known)
    requires Resolvable(e, ms, held, k) && Below(k', k)
    requires forall q | q in held' :: q in held || Sum(ms, Rets(q)) == 0
    ensures Resolvable(e, ms, held', k') && Below(FinallyKnown(e, ms, held', k'), FinallyKnown(e, ms, held, k))
  {
    if ms == [] {
    } else {
      assert Imports(ms[0], held') ==> Imports(ms[0], held) by {
        if ms[0].Return? { assert Sum(ms, Rets(ms[0].answer)) > 0; }
      }
      assert forall q: nat :: Sum(ms, Rets(q)) >= Sum(ms[1..], Rets(q));
      ResolvableLess(e, ms[1..], held, NextKnown(e, ms[0], held, k), held', NextKnown(e, ms[0], held', k'));
    }
  }

  lemma {:induction false} RefersTo(caps: seq<Desc>, e: nat)
    ensures CapRefs(caps, e) > 0 <==> SenderHosted(e) in caps || SenderPromise(e) in caps
  {
    if caps == [] {
    } else {
      assert caps == caps[..|caps| - 1] + [caps[|caps| - 1]];
      RefersTo(caps[..|caps| - 1], e);
    }
  }

  /** With no reference on its way, an importer that knows nothing learns nothing. */
  lemma {:induction false} StaysAbsent(e: nat, ms: seq<Msg>, held: set<nat>)
    requires Sum(ms, Refs(e, held)) == 0
    ensures FinallyKnown(e, ms, held, Absent) == Absent
  {
    if ms == [] {
    } else {
      RefersTo(Caps(ms[0]), e);
      StaysAbsent(e, ms[1..], held);
    }
  }

  // ----------------------------------------------------------- one vat's steps

  /** What sending does to promises. */
  ghost predicate PromiseSends(v: Vat, w: Vat, m: Msg) {
    && (forall e: nat :: KnownAs(w, e) == KnownAs(v, e) || KnownAs(w, e) == Absent)
    && (forall e: nat :: Resolving(w, e) ==> Resolving(v, e) || SenderPromise(e) in Caps(m))
    && (m.Resolve? ==>
        && Resolving(v, m.promiseId) && !Resolving(w, m.promiseId)
        && SenderHosted(m.promiseId) !in Caps(m) && SenderPromise(m.promiseId) !in Caps(m))
  }

  /** What receiving does. */
  ghost predicate PromiseGets(v: Vat, w: Vat, m: Msg) {
    && (forall e: nat :: Below(KnownAs(w, e), NextKnown(e, m, Held(v), KnownAs(v, e))))
    && (forall e: nat :: Resolving(w, e) ==> Resolving(v, e))
  }

  lemma {:induction false} WriteResolving(v: Vat, caps: seq<Option<Hook>>)
    requires LocalOk(v)
    ensures var w := WriteDescriptors(v, caps);
      forall e: nat :: Resolving(w.vat, e) ==> Resolving(v, e) || SenderPromise(e) in w.descs
  {
    if caps == [] {
    } else {
      var n := |caps| - 1;
      WriteResolving(v, caps[..n]);
      var init := WriteDescriptors(v, caps[..n]);
      if caps[n].Some? {
        WriteOneResolving(init.vat, caps[n].value);
        WriteDescriptorOk(init.vat, caps[n].value);
      }
      hide LocalOk, WriteDescriptor;
    }
  }

  lemma WriteOneResolving(v: Vat, hook: Hook)
    requires LocalOk(v)
    ensures var w := WriteDescriptor(v, hook);
      forall e: nat :: Resolving(w.vat, e) ==> Resolving(v, e) || w.desc == SenderPromise(e)
  {
    hide NextId;
  }

  lemma QuietPromises(v: Vat, w: Vat, m: Msg)
    requires w.imports == v.imports && !m.Resolve?
    requires forall e: nat :: Resolving(w, e) ==> Resolving(v, e) || SenderPromise(e) in Caps(m)
    ensures PromiseSends(v, w, m)
  {
  }

  lemma DoPromises(v: Vat, a: Action)
    requires LocalOk(v) && Enabled(v, a)
    ensures var r := Do(v, a); PromiseSends(v, r.0, r.1)
  {
    hide QuestionsOk, AnswersOk, ExportsOk, ImportsOk, ByCapOk;
    hide WriteDescriptors, WriteDescriptor, RefCount, CapRefs, Occurs, DescRefs, NextId;
    match a
    case SendCall(_, caps) =>
      WriteResolving(v, caps);
      WriteDescriptorsOk(v, caps);
    case SendReturn(q, results) => RespondPromises(EndCall(v, q), q, results);
    case ResolveExport(e, resolution) => ResolvePromises(v, e, resolution);
    case _ =>
  }

  lemma RespondPromises(v: Vat, q: nat, results: Option<seq<Option<Hook>>>)
    requires LocalOk(v) && q in v.answers && q !in v.running && (results.Some? ==> UsableCaps(v, results.value))
    ensures var r := Respond(v, q, results); PromiseSends(v, r.0, r.1)
  {
    hide LocalOk, WriteDescriptors, RefCount, CapRefs, Occurs;
    if results.Some? {
      WriteResolving(v, results.value);
      WriteDescriptorsOk(v, results.value);
    }
  }

  /** The resolution goes out under an id of its own. */
  lemma ResolvePromises(v: Vat, e: nat, resolution: Option<Hook>)
    requires LocalOk(v) && Enabled(v, ResolveExport(e, resolution))
    ensures var r := Do(v, ResolveExport(e, resolution)); PromiseSends(v, r.0, r.1)
  {
    if resolution.Some? {
      var hook := resolution.value;
      RepointOk(v, e, hook);
      ResolveToPromises(v, e, hook);
      hide Repoint, WriteDescriptor, LocalOk, PromiseSends;
    }
  }

  lemma ResolveToPromises(v: Vat, e: nat, hook: Hook)
    requires LocalOk(v) && Has(v.exports, e) && LocalOk(Repoint(v, e, hook))
    requires v.exports[e].value.resolving
    ensures var w := WriteDescriptor(Repoint(v, e, hook), hook); PromiseSends(v, w.vat, Resolve(e, ToCap(w.desc)))
  {
    var x := Repoint(v, e, hook);
    assert forall k: nat :: Resolving(x, k) ==> Resolving(v, k);
    hide Repoint, WriteDescriptor, LocalOk, RefCount, DescRefs;
    RepointOk(v, e, hook);
    ResolvesElsewhere(v, e, hook);
    WriteOneResolving(x, hook);
    WriteDescriptorOk(x, hook);
  }

  lemma ResolvesElsewhere(v: Vat, e: nat, hook: Hook)
    requires LocalOk(v) && Has(v.exports, e) && LocalOk(Repoint(v, e, hook))
    ensures var x := Repoint(v, e, hook);
      && WriteDescriptor(x, hook).desc != SenderHosted(e) && WriteDescriptor(x, hook).desc != SenderPromise(e)
      && !Resolving(x, e)
  {
    hide NextId, QuestionsOk, AnswersOk, ImportsOk, ExportsOk;
  }

  lemma ReceiveOneKnown(v: Vat, desc: Desc, e: nat)
    ensures KnownAs(ReceiveCap(v, desc), e) ==
      if KnownAs(v, e) != Absent then KnownAs(v, e)
      else if desc == SenderHosted(e) then Plain
      else if desc == SenderPromise(e) then AsPromise
      else Absent
  {
  }

  lemma FirstInInit(e: nat, init: seq<Desc>, desc: Desc)
    requires PromiseIsFirst(e, init + [desc], 0)
    ensures PromiseIsFirst(e, init, 0)
    ensures desc == SenderPromise(e) ==> SenderHosted(e) !in init && SenderPromise(e) !in init
  {
    var caps := init + [desc];
    assert caps[..|init|] == init && forall i | 0 <= i < |init| :: caps[..i] == init[..i];
    RefersTo(init, e);
  }

  /** What an importer knows after a capability table. */
  lemma {:induction false} ReceiveKnown(v: Vat, caps: seq<Desc>, e: nat)
    ensures var w := ReceiveCaps(v, caps);
      && (KnownAs(v, e) != Absent || (SenderHosted(e) !in caps && SenderPromise(e) !in caps) ==>
          KnownAs(w, e) == KnownAs(v, e))
      && (KnownAs(v, e) == Absent && SenderPromise(e) in caps && PromiseIsFirst(e, caps, 0) ==>
          KnownAs(w, e) == AsPromise)
      && (KnownAs(v, e) == Absent && SenderPromise(e) !in caps && SenderHosted(e) in caps ==> KnownAs(w, e) == Plain)
  {
    hide KnownAs, ReceiveCap, PromiseIsFirst;
    if caps == [] {
    } else {
      var init, last := caps[..|caps| - 1], caps[|caps| - 1];
      assert caps == init + [last];
      ReceiveKnown(v, init, e);
      ReceiveOneKnown(ReceiveCaps(v, init), last, e);
      if PromiseIsFirst(e, caps, 0) { FirstInInit(e, init, last); }
    }
  }

  lemma ReceiveBelow(v: Vat, w: Vat, m: Msg, e: nat)
    requires w.imports == ReceiveCaps(v, Caps(m)).imports && !m.Resolve? && Imports(m, Held(v))
    requires PromiseIsFirst(e, Caps(m), ImportRefs(v, e))
    ensures Below(KnownAs(w, e), NextKnown(e, m, Held(v), KnownAs(v, e)))
  {
    ReceiveKnown(v, Caps(m), e);
    hide ReceiveCaps, CapRefs, Held;
  }

  lemma SameKnown(v: Vat, w: Vat, m: Msg)
    requires w.imports == v.imports && Caps(m) == [] && !m.Resolve?
    requires forall e: nat :: Resolving(w, e) ==> Resolving(v, e)
    ensures PromiseGets(v, w, m)
  {
  }

  lemma {:induction false} ReleaseResolving(v: Vat, ids: seq<nat>)
    ensures var r := ReleaseExports(v, ids);
      r.Some? ==> r.value.imports == v.imports && forall e: nat :: Resolving(r.value, e) ==> Resolving(v, e)
  {
    if ids == [] {
    } else {
      ReleaseResolving(v, ids[..|ids| - 1]);
    }
  }

  lemma ResolveKnown(v: Vat, p: nat, resolution: Resolution, called: bool, e: nat)
    requires LocalOk(v)
    ensures var r := HandleResolve(v, p, resolution, called);
      var m := Resolve(p, resolution);
      && (r.Ok? ==> r.vat.exports == v.exports && Below(KnownAs(r.vat, e), NextKnown(e, m, Held(v), KnownAs(v, e))))
      && (r == Err(ResolveOfNonPromise) && p == e ==> Learns(e, m, Held(v), KnownAs(v, e)) == Plain)
  {
    hide LocalOk, Put, NextId, Held;
    var m := Resolve(p, resolution);
    ReceiveKnown(v, Caps(m), e);
    if resolution.ToCap? {
      assert Caps(m) == [resolution.desc] && [resolution.desc][..0] == [];
      assert ReceiveCaps(v, [resolution.desc]) == ReceiveCap(v, resolution.desc);
    }
  }

  lemma ReturnKnown(v: Vat, q: nat, ret: Ret)
    requires LocalOk(v) && forall e: nat :: PromiseIsFirst(e, Caps(Return(q, ret)), ImportRefs(v, e))
    ensures var r := HandleReturn(v, q, ret); r.Ok? ==> PromiseGets(v, r.vat, Return(q, ret))
  {
    hide LocalOk;
    var m, r := Return(q, ret), HandleReturn(v, q, ret);
    if r.Ok? {
      var asked := Settle(v, q, ret);
      if ret.Results? { ReceiveCapsOk(asked, ret.caps); }
      assert q in Held(v) <==> HasRef(v, q);
      hide ReceiveCaps, CapRefs, Held, PromiseIsFirst;
      forall e: nat ensures Below(KnownAs(r.vat, e), NextKnown(e, m, Held(v), KnownAs(v, e))) {
        if ret.Results? { ReceiveKnown(asked, ret.caps, e); }
        assert KnownAs(asked, e) == KnownAs(v, e) && (KnownAs(v, e) == Absent ==> ImportRefs(v, e) == 0);
        assert PromiseIsFirst(e, Caps(m), ImportRefs(v, e));
      }
    }
  }

  lemma CallKnown(v: Vat, q: nat, target: Target, caps: seq<Desc>)
    requires LocalOk(v) && forall e: nat :: PromiseIsFirst(e, caps, ImportRefs(v, e))
    ensures var r := HandleCall(v, q, target, caps); r.Ok? ==> PromiseGets(v, r.vat, Call(q, target, caps))
  {
    hide LocalOk;
    var m, r := Call(q, target, caps), HandleCall(v, q, target, caps);
    if r.Ok? {
      ReceiveCapsOk(v, caps);
      hide CapRefs, ImportRefs;
      forall e: nat ensures Below(KnownAs(r.vat, e), NextKnown(e, m, Held(v), KnownAs(v, e))) {
        ReceiveBelow(v, r.vat, m, e);
      }
    }
  }

  lemma FinishKnown(v: Vat, q: nat, release: bool)
    requires LocalOk(v)
    ensures var r := HandleFinish(v, q, release); r.Ok? ==> PromiseGets(v, r.vat, Finish(q, release))
  {
    hide LocalOk, ReleaseExports;
    if q in v.answers {
      var a := v.answers[q];
      var w := CloseAnswer(v, q, release);
      ReleaseResolving(w, if release then a.resultExports else []);
      assert forall e: nat :: Resolving(w, e) == Resolving(v, e);
      var r := HandleFinish(v, q, release);
      if r.Ok? { SameKnown(v, r.vat, Finish(q, release)); }
    }
  }

  /** Taking in a message, and replying to it. */
  lemma HandlePromises(v: Vat, m: Msg, called: bool, leads: Hook, mid: Vat)
    requires LocalOk(v) && LocalOk(mid) && Ready(v, m)
    requires var r := Handle(v, m, called, leads); r.Ok? && Taken(v, m, r.vat, mid)
    ensures PromiseGets(v, mid, m)
    ensures var r := Handle(v, m, called, leads); r.out == [] || (|r.out| == 1 && PromiseSends(mid, r.vat, r.out[0]))
  {
    hide LocalOk, HandleCall, HandleReturn, HandleFinish, HandleRelease, HandleDisembargo, Respond, WriteDescriptors;
    hide HandleResolve, PromiseGets, PromiseSends, Uses, Reaches, PromiseIsFirst;
    var r := Handle(v, m, called, leads);
    match m
    case Bootstrap(q) => BootstrapKnown(v, q);
    case Call(q, target, caps) => CallKnown(v, q, target, caps); CallReplies(v, m, called, leads);
    case Return(q, ret) => ReturnKnown(v, q, ret); CallReplies(v, m, called, leads);
    case Finish(q, release) => FinishKnown(v, q, release); CallReplies(v, m, called, leads);
    case Resolve(p, resolution) => ResolvedPromises(v, p, resolution, called);
    case Release(id, count) => OthersKnown(v, m, called, leads);
    case Disembargo(_, _) => OthersKnown(v, m, called, leads);
  }

  lemma ResolvedPromises(v: Vat, p: nat, resolution: Resolution, called: bool)
    requires LocalOk(v) && HandleResolve(v, p, resolution, called).Ok?
    ensures var r := HandleResolve(v, p, resolution, called);
      var mid := r.vat.(embargoes := v.embargoes);
      && PromiseGets(v, mid, Resolve(p, resolution))
      && (r.out == [] || (|r.out| == 1 && PromiseSends(mid, r.vat, r.out[0])))
  {
    hide LocalOk, PromiseSends, NextKnown, Below, Put, NextId, Received, LeadsOver;
    var r, m := HandleResolve(v, p, resolution, called), Resolve(p, resolution);
    var mid := r.vat.(embargoes := v.embargoes);
    forall e: nat ensures Below(KnownAs(mid, e), NextKnown(e, m, Held(v), KnownAs(v, e))) {
      ResolveKnown(v, p, resolution, called, e);
    }
    if r.out != [] { QuietPromises(mid, r.vat, r.out[0]); }
  }

  lemma OthersKnown(v: Vat, m: Msg, called: bool, leads: Hook)
    requires LocalOk(v) && (m.Release? || m.Disembargo?)
    ensures var r := Handle(v, m, called, leads); r.Ok? ==> r.out == [] && PromiseGets(v, r.vat, m)
  {
    hide LocalOk, PromiseGets;
    var r := Handle(v, m, called, leads);
    if r.Ok? { SameKnown(v, r.vat, m); }
  }

  lemma CallReplies(v: Vat, m: Msg, called: bool, leads: Hook)
    requires LocalOk(v) && (m.Call? || (m.Return? && (m.ret.Canceled? ==> !HasRef(v, m.answer))) || m.Finish?)
    ensures var r := Handle(v, m, called, leads); r.Ok? ==> r.out == []
  {
  }

  lemma BootstrapKnown(v: Vat, q: nat)
    requires LocalOk(v) && q !in v.answers
    ensures PromiseGets(v, AddAnswer(v, q), Bootstrap(q))
    ensures var r := HandleBootstrap(v, q); r.Ok? && |r.out| == 1 && PromiseSends(AddAnswer(v, q), r.vat, r.out[0])
  {
    hide Respond, AnswersOk, ExportsOk, QuestionsOk, ImportsOk, ByCapOk;
    SameKnown(v, AddAnswer(v, q), Bootstrap(q));
    RespondPromises(AddAnswer(v, q), q, Some([Some(v.boot)]));
  }

  // ------------------------------------------------------------ over the connection

  /** Every `Resolve` on its way, and the one still to be sent, will find a promise or nothing. */
  predicate PromiseOk(a: Vat, b: Vat, ba: seq<Msg>, e: nat) {
    && Resolvable(e, ba, Held(a), KnownAs(a, e))
    && (Resolving(b, e) ==> FinallyKnown(e, ba, Held(a), KnownAs(a, e)) != Plain)
  }

  ghost predicate PromisesOk(a: Vat, b: Vat, ba: seq<Msg>) {
    forall e: nat :: PromiseOk(a, b, ba, e)
  }

  lemma AskerSendsPromises(a: Vat, a': Vat, b: Vat, ab: seq<Msg>, ba: seq<Msg>, m: Msg)
    requires Half(a, b, ab, ba) && AskerSends(a, a', m) && PromiseSends(a, a', m) && PromisesOk(a, b, ba)
    ensures PromisesOk(a', b, ba)
  {
    hide Resolvable, FinallyKnown, KnownAs, Resolving;
    forall q | q in Held(a') ensures q in Held(a) || Sum(ba, Rets(q)) == 0 {
      assert QuestionOk(a, b, ab, ba, q);
    }
    hide Half, AskerSends;
    forall e: nat ensures PromiseOk(a', b, ba, e) {
      assert PromiseOk(a, b, ba, e);
      ResolvableLess(e, ba, Held(a), KnownAs(a, e), Held(a'), KnownAs(a', e));
    }
  }

  /** A promise that is exported for the first time is news to the importer. */
  lemma NewPromiseIsNews(a: Vat, b: Vat, ab: seq<Msg>, ba: seq<Msg>, m: Msg, e: nat)
    requires LocalOk(a) && Balanced(a, b, ab, ba, e) && PromiseIsFirst(e, Caps(m), RefCount(b, e))
    requires SenderPromise(e) in Caps(m)
    ensures FinallyKnown(e, ba, Held(a), KnownAs(a, e)) == Absent
  {
    var i :| 0 <= i < |Caps(m)| && Caps(m)[i] == SenderPromise(e);
    assert RefCount(b, e) == 0;
    StaysAbsent(e, ba, Held(a));
  }

  lemma AnswererSendsPromises(a: Vat, b: Vat, b': Vat, ab: seq<Msg>, ba: seq<Msg>, m: Msg, e: nat)
    requires LocalOk(a) && Balanced(a, b, ab, ba, e) && PromiseIsFirst(e, Caps(m), RefCount(b, e))
    requires PromiseSends(b, b', m) && !PassesOff(b', m, Held(a), e) && PromiseOk(a, b, ba, e)
    ensures PromiseOk(a, b', ba + [m], e)
  {
    hide LocalOk, Balanced, Resolvable, FinallyKnown, KnownAs, Resolving, Imports, PromiseIsFirst, Held;
    ResolvableSnoc(e, ba, m, Held(a), KnownAs(a, e));
    if SenderPromise(e) in Caps(m) { NewPromiseIsNews(a, b, ab, ba, m, e); }
  }

  /** The importer sends something. */
  lemma LeftSendsPromises(s: System, w: Vat, m: Msg)
    requires FairInv(s) && Sends(s.left, w, m) && PromiseSends(s.left, w, m)
    ensures FairInv(s.(left := w, toRight := s.toRight + [m]))
  {
    hide PromisesOk, PromiseSends, LocalOk, Half, AskerSends, AnswererSends, WellFormed;
    SendInv(s, w, m);
    AskerSendsPromises(s.left, w, s.right, s.toRight, s.toLeft, m);
  }

  /** The exporter sends something, and does not pass off a promise. */
  lemma RightSendsPromises(s: System, w: Vat, m: Msg)
    requires FairInv(s) && Sends(s.right, w, m) && PromiseSends(s.right, w, m) && Fair(w, m, Held(s.left))
    ensures FairInv(s.(right := w, toLeft := s.toLeft + [m]))
  {
    hide PromiseOk, PromiseSends, PassesOff, LocalOk, QuestionOk, ReturnOk, PromiseIsFirst, ResultsSent, Legal;
    InvParts(s);
    SendInv(Mirror(s), w, m);
    MirrorInv(s.(right := w, toLeft := s.toLeft + [m]));
    forall e: nat ensures PromiseOk(s.left, w, s.toLeft + [m], e) {
      assert Balanced(s.left, s.right, s.toRight, s.toLeft, e);
      AnswererSendsPromises(s.left, s.right, w, s.toRight, s.toLeft, m, e);
    }
  }

  /** The importer takes something in. */
  lemma LeftGetsPromises(s: System, w: Vat)
    requires FairInv(s) && s.toLeft != [] && Gets(s.left, w, s.toLeft[0]) && PromiseGets(s.left, w, s.toLeft[0])
    ensures FairInv(s.(left := w, toLeft := s.toLeft[1..]))
  {
    ReceiveInv(s, w);
    SameHeld(s.left, w, s.toLeft[0]);
    hide Inv, Gets, KnownAs, NextKnown, Learns, Resolving, Held;
    forall e: nat ensures PromiseOk(w, s.right, s.toLeft[1..], e) {
      assert PromiseOk(s.left, s.right, s.toLeft, e);
      ResolvableLess(e, s.toLeft[1..], Held(s.left), NextKnown(e, s.toLeft[0], Held(s.left), KnownAs(s.left, e)),
                     Held(w), KnownAs(w, e));
    }
  }

  lemma SameHeld(v: Vat, w: Vat, m: Msg)
    requires Gets(v, w, m)
    ensures Held(w) == Held(v)
  {
    hide LocalOk, AnswererGets;
  }

  /** The exporter takes something in. */
  lemma RightGetsPromises(s: System, w: Vat)
    requires FairInv(s) && s.toRight != [] && Gets(s.right, w, s.toRight[0]) && PromiseGets(s.right, w, s.toRight[0])
    ensures FairInv(s.(right := w, toRight := s.toRight[1..]))
  {
    hide Inv, Gets, KnownAs, Held, Resolving, Resolvable, FinallyKnown;
    InvParts(s);
    ReceiveInv(Mirror(s), w);
    MirrorInv(s.(right := w, toRight := s.toRight[1..]));
    forall e: nat ensures PromiseOk(s.left, w, s.toLeft, e) {
      assert PromiseOk(s.left, s.right, s.toLeft, e);
    }
  }

  // --------------------------------------------------------------- fair runs

  /** A step by which the right vat does not pass off an unresolved promise as settled; the left one may do
      anything. */
  ghost predicate FairStep(s: System, t: System) {
    Step(s, t) && (|t.toLeft| > |s.toLeft| ==> Fair(t.right, t.toLeft[|t.toLeft| - 1], Held(s.left)))
  }

  ghost predicate FairRun(states: seq<System>) {
    && states != [] && Init(states[0])
    && forall i | 0 < i < |states| :: FairStep(states[i - 1], states[i])
  }

  ghost predicate FairlyReachable(s: System) {
    exists states: seq<System> :: FairRun(states) && s == states[|states| - 1]
  }

  ghost predicate FairInv(s: System) {
    Inv(s) && PromisesOk(s.left, s.right, s.toLeft)
  }

  /** Whatever the left vat does is fair. */
  lemma LeftStepFair(s: System, event: Event, t: System)
    requires FairInv(s) && LeftStep(s, event, t)
    ensures FairInv(t)
  {
    hide FairInv, PromiseSends, PromiseGets, LocalOk, Half, Ready, Handle, Do, Taken, Sends, Gets;
    FairInvParts(s);
    match event
    case Act(a) =>
      DoSends(s.left, a);
      DoPromises(s.left, a);
      LeftSendsPromises(s, Do(s.left, a).0, Do(s.left, a).1);
    case Receive(called, leads) =>
      NextIsReady(s.right, s.left, s.toLeft, s.toRight);
      var mid := HandleGets(s.left, s.toLeft[0], called, leads);
      var r := Handle(s.left, s.toLeft[0], called, leads);
      GetsOk(s.left, mid, s.toLeft[0]);
      HandlePromises(s.left, s.toLeft[0], called, leads, mid);
      LeftGetsPromises(s, mid);
      if r.out == [] {
        assert s.toRight + [] == s.toRight;
      } else {
        LeftSendsPromises(s.(left := mid, toLeft := s.toLeft[1..]), r.vat, r.out[0]);
        assert r.out == [r.out[0]];
      }
  }

  lemma RightStepFair(s: System, event: Event, t: System)
    requires FairInv(s) && LeftStep(Mirror(s), event, Mirror(t))
    requires |t.toLeft| > |s.toLeft| ==> Fair(t.right, t.toLeft[|t.toLeft| - 1], Held(s.left))
    ensures FairInv(t)
  {
    hide FairInv, PromiseSends, PromiseGets, Fair, LocalOk, Half, Ready, Handle, Do, Taken, Sends, Gets, Held;
    FairInvParts(s);
    match event
    case Act(a) =>
      DoSends(s.right, a);
      DoPromises(s.right, a);
      RightSendsPromises(s, Do(s.right, a).0, Do(s.right, a).1);
    case Receive(called, leads) =>
      NextIsReady(s.left, s.right, s.toRight, s.toLeft);
      var mid := HandleGets(s.right, s.toRight[0], called, leads);
      var r := Handle(s.right, s.toRight[0], called, leads);
      GetsOk(s.right, mid, s.toRight[0]);
      HandlePromises(s.right, s.toRight[0], called, leads, mid);
      RightGetsPromises(s, mid);
      if r.out == [] {
        assert s.toLeft + [] == s.toLeft;
      } else {
        assert r.out == [r.out[0]];
        RightSendsPromises(s.(right := mid, toRight := s.toRight[1..]), r.vat, r.out[0]);
      }
  }

  lemma FairInvParts(s: System)
    requires FairInv(s)
    ensures Inv(s) && LocalOk(s.left) && LocalOk(s.right)
    ensures Half(s.left, s.right, s.toRight, s.toLeft) && Half(s.right, s.left, s.toLeft, s.toRight)
  {
    hide LocalOk, Half, PromisesOk;
  }

  lemma FairStepInv(s: System, t: System)
    requires FairInv(s) && FairStep(s, t)
    ensures FairInv(t)
  {
    hide FairInv, LeftStep, Fair, Held;
    var event: Event :| LeftStep(s, event, t) || LeftStep(Mirror(s), event, Mirror(t));
    if LeftStep(s, event, t) { LeftStepFair(s, event, t); } else { RightStepFair(s, event, t); }
  }

  lemma NewPromises(a: Vat, b: Vat)
    requires New(b)
    ensures PromisesOk(a, b, [])
  {
    forall e: nat ensures PromiseOk(a, b, [], e) {}
  }

  lemma {:induction false} FairRunInv(states: seq<System>, k: nat)
    requires FairRun(states) && k < |states|
    ensures FairInv(states[k])
  {
    hide Inv, FairStep, PromisesOk, New;
    if k == 0 {
      InitInv(states[0]);
      NewPromises(states[0].left, states[0].right);
    } else {
      FairRunInv(states, k - 1);
      FairStepInv(states[k - 1], states[k]);
    }
  }

  /** The next message to the left is a `Resolve` that it refuses. */
  ghost predicate RefusesResolve(s: System) {
    && LocalOk(s.left) && s.toLeft != [] && s.toLeft[0].Resolve?
    && Handle(s.left, s.toLeft[0], false, Local(0)) == Err(ResolveOfNonPromise)
  }

  lemma FairRefusesNone(s: System)
    requires FairInv(s)
    ensures !RefusesResolve(s)
  {
    hide Inv, LocalOk, Learns, NextKnown, KnownAs, Held, Resolving;
    if RefusesResolve(s) {
      var p := s.toLeft[0].promiseId;
      assert PromiseOk(s.left, s.right, s.toLeft, p);
      ResolveKnown(s.left, p, s.toLeft[0].resolution, false, p);
      assert false;
    }
  }

  /** As long as the exporter does not export an unresolved promise again, except together with its announcement, no
      `Resolve` to the importer is refused. */
  lemma FairResolvesFindPromises(s: System)
    requires FairlyReachable(s)
    ensures !RefusesResolve(s)
  {
    hide FairInv, RefusesResolve;
    var states: seq<System> :| FairRun(states) && s == states[|states| - 1];
    FairRunInv(states, |states| - 1);
    FairRefusesNone(s);
  }
}
