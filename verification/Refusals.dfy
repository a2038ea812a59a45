/** When a `Resolve` can be refused: exactly after the exporter has passed off an unresolved promise as settled. */
module Refusals {
  import opened Options
  import opened Rpc
  import opened Traffic
  import opened PeerView
  import opened VatSteps
  import opened TwoVats
  import opened RpcRuns
  import opened Loopbacks
  import opened Promises

  // --------------------------------------------------------------- continuations

  ghost predicate FairPath(path: seq<System>) {
    path != [] && forall i | 0 < i < |path| :: FairStep(path[i - 1], path[i])
  }

  /** From `s` the connection can go on to `u` without another promise being passed off. */
  ghost predicate FairlyTo(s: System, u: System) {
    exists path: seq<System> :: FairPath(path) && path[0] == s && path[|path| - 1] == u
  }

  /** The connection can come to a `Resolve` that the left vat refuses, without another promise being passed off. */
  ghost predicate CanRefuse(s: System) {
    exists u: System :: FairlyTo(s, u) && RefusesResolve(u)
  }

  lemma RefusesNow(s: System)
    requires RefusesResolve(s)
    ensures CanRefuse(s)
  {
    hide RefusesResolve, FairStep;
    assert FairPath([s]) && [s][0] == s;
    assert FairlyTo(s, s);
  }

  lemma RefusesAfter(s: System, t: System)
    requires FairStep(s, t) && CanRefuse(t)
    ensures CanRefuse(s)
  {
    hide RefusesResolve, FairStep;
    var u: System :| FairlyTo(t, u) && RefusesResolve(u);
    var path: seq<System> :| FairPath(path) && path[0] == t && path[|path| - 1] == u;
    var longer := [s] + path;
    assert forall i | 0 < i < |longer| :: FairStep(longer[i - 1], longer[i]);
    assert FairPath(longer) && longer[0] == s && longer[|longer| - 1] == u;
    assert FairlyTo(s, u);
  }

  lemma {:induction false} FairPathInv(path: seq<System>, k: nat)
    requires FairPath(path) && FairInv(path[0]) && k < |path|
    ensures FairInv(path[k])
  {
    hide FairInv, FairStep;
    if k == 0 {
    } else {
      FairPathInv(path, k - 1);
      FairStepInv(path[k - 1], path[k]);
    }
  }

  lemma FairNeverRefuses(s: System)
    requires FairInv(s)
    ensures !CanRefuse(s)
  {
    hide FairInv, RefusesResolve, FairStep;
    forall u: System | FairlyTo(s, u) ensures !RefusesResolve(u) {
      var path: seq<System> :| FairPath(path) && path[0] == s && path[|path| - 1] == u;
      FairPathInv(path, |path| - 1);
      FairRefusesNone(u);
    }
  }

  // ------------------------------------------------- from a promise passed off to a refusal

  /** The last message to the left passes off export `e` of the right vat, which is still unresolved. */
  ghost predicate Primed(s: System, e: nat) {
    Reachable(s) && s.toLeft != [] && PassesOff(s.right, s.toLeft[|s.toLeft| - 1], Held(s.left), e)
  }

  /** The next message is taken in, or it is a `Resolve` that is refused. */
  lemma TakesNext(s: System)
    requires Reachable(s) && s.toLeft != [] && !RefusesResolve(s)
    ensures LocalOk(s.left) && Handle(s.left, s.toLeft[0], false, Hook.Imported(0)).Ok?
  {
    hide Reachable, LocalOk, HandleBootstrap, HandleCall, HandleReturn, HandleFinish, HandleRelease, HandleDisembargo;
    OneErrorLeft(s, false, Hook.Imported(0));
  }

  /** The left vat takes in its next message. */
  function AfterNext(s: System): System
    requires s.toLeft != [] && LocalOk(s.left) && Handle(s.left, s.toLeft[0], false, Hook.Imported(0)).Ok?
  {
    var r := Handle(s.left, s.toLeft[0], false, Hook.Imported(0));
    s.(left := r.vat, toRight := s.toRight + r.out, toLeft := s.toLeft[1..])
  }

  lemma NextIsFair(s: System)
    requires Reachable(s) && s.toLeft != [] && LocalOk(s.left)
    requires Handle(s.left, s.toLeft[0], false, Hook.Imported(0)).Ok?
    ensures FairStep(s, AfterNext(s)) && Reachable(AfterNext(s))
  {
    hide Reachable, Handle, LocalOk, Fair;
    OnLeft(s, Receive(false, Hook.Imported(0)), AfterNext(s));
    hide Step;
    ReachNext(s, AfterNext(s));
  }

  /** Taking in a message drops no question. */
  lemma HandleKeepsHeld(v: Vat, m: Msg, leads: Hook)
    requires LocalOk(v) && Handle(v, m, false, leads).Ok?
    ensures Held(Handle(v, m, false, leads).vat) == Held(v)
  {
    hide LocalOk, Respond, HandleCall, HandleReturn, HandleFinish, Held;
    var w := Handle(v, m, false, leads).vat;
    match m {
      case Bootstrap(q) => BootstrapAnswered(v, q); BootKeepsQuestions(v); SameHeld(v, w);
      case Call(q, target, caps) => CallKeepsQuestions(v, q, target, caps); SameHeld(v, w);
      case Return(q, ret) => ReturnKeepsHeld(v, q, ret);
      case Finish(q, release) => FinishKeepsQuestions(v, q, release); SameHeld(v, w);
      case _ => SameHeld(v, w);
    }
  }

  lemma SameHeld(v: Vat, w: Vat)
    requires w.questions == v.questions
    ensures Held(w) == Held(v)
  {
  }

  lemma CallKeepsQuestions(v: Vat, q: nat, target: Target, caps: seq<Desc>)
    requires LocalOk(v) && HandleCall(v, q, target, caps).Ok?
    ensures HandleCall(v, q, target, caps).vat.questions == v.questions
  {
    hide LocalOk, ReceiveCaps, ReceivedAll;
    ReceiveCapsOk(v, caps);
  }

  lemma ReturnKeepsHeld(v: Vat, q: nat, ret: Ret)
    requires LocalOk(v) && HandleReturn(v, q, ret).Ok?
    ensures Held(HandleReturn(v, q, ret).vat) == Held(v)
  {
    hide LocalOk, ReceiveCaps, ReceivedAll;
    if ret.Results? { ReceiveCapsOk(Settle(v, q, ret), ret.caps); }
    var w := HandleReturn(v, q, ret).vat;
    assert forall k: nat :: HasRef(w, k) == HasRef(v, k);
  }

  lemma BootKeepsQuestions(v: Vat)
    requires LocalOk(v)
    ensures WriteDescriptors(v, [Some(v.boot)]).vat.questions == v.questions
  {
  }

  lemma FinishKeepsQuestions(v: Vat, q: nat, release: bool)
    requires LocalOk(v) && HandleFinish(v, q, release).Ok?
    ensures HandleFinish(v, q, release).vat.questions == v.questions
  {
    hide ReleaseExports, ExportsOk, QuestionsOk, ImportsOk, ByCapOk, Occurs, RefCount;
    var a := v.answers[q];
    var w := CloseAnswer(v, q, release);
    assert LocalOk(w);
    ReleaseExportsOk(w, if release then a.resultExports else []);
  }

  /** An importer that did not know an export, and is told of it other than as a promise, has it as no promise. */
  lemma HandleLearnsPlain(v: Vat, m: Msg, leads: Hook, e: nat)
    requires LocalOk(v) && Handle(v, m, false, leads).Ok? && e !in v.imports
    requires Imports(m, Held(v)) && SenderHosted(e) in Caps(m) && SenderPromise(e) !in Caps(m)
    ensures KnownAs(Handle(v, m, false, leads).vat, e) == Plain
  {
    hide LocalOk, Respond;
    match m
    case Call(_, _, caps) => ReceiveKnown(v, caps, e);
    case Return(q, ret) =>
      var asked := Settle(v, q, ret);
      ReceiveKnown(asked, ret.caps, e);
    case Resolve(p, resolution) =>
  }

  /** Right after the importer has learned of an unresolved promise as something settled, the exporter resolves it
      to an error. */
  lemma ResolveIsRefused(s: System, e: nat)
    requires Reachable(s) && s.toLeft == [] && KnownAs(s.left, e) == Plain && Resolving(s.right, e)
    ensures CanRefuse(s)
  {
    ReachableInv(s);
    InvParts(s);
    hide Reachable, Inv, Half;
    var v := s.right;
    var w := Do(v, ResolveExport(e, None)).0;
    var t := s.(right := w, toLeft := [Resolve(e, ToException)]);
    assert LeftStep(Mirror(s), Act(ResolveExport(e, None)), Mirror(t));
    assert FairStep(s, t);
    assert RefusesResolve(t);
    RefusesNow(t);
    RefusesAfter(s, t);
  }

  /** The last message is all that is left, and the importer does not hold the promise. */
  lemma PrimedUnheld(s: System, e: nat)
    requires Primed(s, e) && |s.toLeft| == 1 && e !in s.left.imports
    ensures CanRefuse(s)
  {
    hide Reachable, CanRefuse, Handle, LocalOk, FairStep, KnownAs, Held, Resolving;
    if RefusesResolve(s) {
      RefusesNow(s);
    } else {
      TakesNext(s);
      NextIsFair(s);
      HandleLearnsPlain(s.left, s.toLeft[0], Hook.Imported(0), e);
      ResolveIsRefused(AfterNext(s), e);
      RefusesAfter(s, AfterNext(s));
    }
  }

  /** If the importer holds the promise, it drops it first. */
  lemma PrimedLast(s: System, e: nat)
    requires Primed(s, e) && |s.toLeft| == 1
    ensures CanRefuse(s)
  {
    if e in s.left.imports {
      ReachableInv(s);
      hide Reachable, CanRefuse, Resolving, Half;
      var r := Do(s.left, DropImport(e));
      var t := s.(left := r.0, toRight := s.toRight + [r.1]);
      OnLeft(s, Act(DropImport(e)), t);
      assert Held(t.left) == Held(s.left);
      hide Step, Inv, Held;
      ReachNext(s, t);
      PrimedUnheld(t, e);
      RefusesAfter(s, t);
    } else {
      PrimedUnheld(s, e);
    }
  }

  /** Whatever else is under way is taken in first. */
  lemma {:induction false} PrimedRefuses(s: System, e: nat)
    requires Primed(s, e)
    ensures CanRefuse(s)
    decreases |s.toLeft|
  {
    hide Reachable, CanRefuse, Handle, LocalOk, FairStep, PassesOff, Held;
    if RefusesResolve(s) {
      RefusesNow(s);
    } else if |s.toLeft| == 1 {
      PrimedLast(s, e);
    } else {
      TakesNext(s);
      NextIsFair(s);
      HandleKeepsHeld(s.left, s.toLeft[0], Hook.Imported(0));
      PrimedRefuses(AfterNext(s), e);
      RefusesAfter(s, AfterNext(s));
    }
  }

  /** A step by which the right vat sends something leaves the left one as it is. */
  lemma GrowsFromRight(s: System, t: System)
    requires Step(s, t) && |t.toLeft| > |s.toLeft|
    ensures t.left == s.left
  {
    hide LocalOk, Handle, Do, Enabled;
  }

  /** Up to here the exporter has never passed off an unresolved promise. Then after the next step a `Resolve` can come
      to be refused, without another promise being passed off, if and only if this step passes one off. */
  lemma RefusalIff(s: System, t: System)
    requires FairlyReachable(s) && Step(s, t)
    ensures CanRefuse(t) <==> !FairStep(s, t)
  {
    hide Step, CanRefuse, FairInv, Reachable, Held, PassesOff;
    FairlyIsReachable(s);
    var states: seq<System> :| FairRun(states) && s == states[|states| - 1];
    FairRunInv(states, |states| - 1);
    if FairStep(s, t) {
      FairStepInv(s, t);
      FairNeverRefuses(t);
    } else {
      GrowsFromRight(s, t);
      ReachNext(s, t);
      var e: nat :| PassesOff(t.right, t.toLeft[|t.toLeft| - 1], Held(s.left), e);
      PrimedRefuses(t, e);
    }
  }

  lemma FairlyIsReachable(s: System)
    requires FairlyReachable(s)
    ensures Reachable(s)
  {
    hide Step, Fair;
    var states: seq<System> :| FairRun(states) && s == states[|states| - 1];
    assert forall i | 0 < i < |states| :: Step(states[i - 1], states[i]);
    assert Run(states);
  }
}
