/** Runs of a connection: two vats and the messages in flight between them, while both stay connected. */
module RpcRuns {
  import opened Options
  import opened IdTable
  import opened Rpc
  import opened Traffic
  import opened PeerView
  import opened VatSteps
  import opened TwoVats

  datatype System = System(left: Vat, right: Vat, toRight: seq<Msg>, toLeft: seq<Msg>)

  /** The same connection from the other side. */
  function Mirror(s: System): System {
    System(s.right, s.left, s.toLeft, s.toRight)
  }

  /** A vat acts of its own accord, or takes in the next message. */
  datatype Event = Act(action: Action) | Receive(called: bool, leads: Hook)

  ghost predicate LeftStep(s: System, event: Event, t: System) {
    && LocalOk(s.left)
    && match event
       case Act(a) =>
         && Enabled(s.left, a)
         && t == s.(left := Do(s.left, a).0, toRight := s.toRight + [Do(s.left, a).1])
       case Receive(called, leads) =>
         && s.toLeft != []
         && var r := Handle(s.left, s.toLeft[0], called, leads);
            r.Ok? && t == s.(left := r.vat, toRight := s.toRight + r.out, toLeft := s.toLeft[1..])
  }

  ghost predicate Step(s: System, t: System) {
    exists event: Event :: LeftStep(s, event, t) || LeftStep(Mirror(s), event, Mirror(t))
  }

  predicate New(v: Vat) {
    && IsLocal(v.boot)
    && v.exports == [] && v.questions == [] && v.answers == map[] && v.running == map[] && v.imports == map[]
    && v.byCap == map[] && v.embargoes == [] && v.loopbacks == []
  }

  predicate Init(s: System) {
    New(s.left) && New(s.right) && s.toRight == [] && s.toLeft == []
  }

  ghost predicate Run(states: seq<System>) {
    && states != [] && Init(states[0])
    && forall i | 0 < i < |states| :: Step(states[i - 1], states[i])
  }

  ghost predicate Reachable(s: System) {
    exists states: seq<System> :: Run(states) && s == states[|states| - 1]
  }

  lemma OnLeft(s: System, event: Event, t: System)
    requires LeftStep(s, event, t)
    ensures Step(s, t)
  {
  }

  lemma OnRight(s: System, event: Event, t: System)
    requires LeftStep(Mirror(s), event, Mirror(t))
    ensures Step(s, t)
  {
  }

  lemma ReachNext(s: System, t: System)
    requires Reachable(s) && Step(s, t)
    ensures Reachable(t)
  {
    hide Step, Init;
    var states: seq<System> :| Run(states) && s == states[|states| - 1];
    var more := states + [t];
    assert forall i | 0 < i < |more| :: Step(more[i - 1], more[i]);
    assert Run(more) && more[|more| - 1] == t;
  }

  // ------------------------------------------------------------- the invariant

  ghost predicate Inv(s: System) {
    && LocalOk(s.left) && LocalOk(s.right)
    && Half(s.left, s.right, s.toRight, s.toLeft)
    && Half(s.right, s.left, s.toLeft, s.toRight)
  }

  lemma NewHalf(a: Vat, b: Vat)
    requires New(a) && New(b)
    ensures Half(a, b, [], [])
  {
    forall q: nat ensures QuestionOk(a, b, [], [], q) && ReturnOk(b, [], q) {}
    forall e: nat ensures Balanced(a, b, [], [], e) && Backed(ImportRefs(a, e), [], e) && Announced(a, [], e) {}
  }

  lemma InitInv(s: System)
    requires Init(s)
    ensures Inv(s)
  {
    hide Half;
    NewHalf(s.left, s.right);
    NewHalf(s.right, s.left);
  }

  lemma SendInv(s: System, w: Vat, m: Msg)
    requires Inv(s) && Sends(s.left, w, m)
    ensures Inv(s.(left := w, toRight := s.toRight + [m]))
  {
    hide LocalOk, Half, AskerSends, AnswererSends, WellFormed;
    AskerSendsHalf(s.left, w, s.right, s.toRight, s.toLeft, m);
    AnswererSendsHalf(s.right, s.left, w, s.toLeft, s.toRight, m);
  }

  lemma ReceiveInv(s: System, w: Vat)
    requires Inv(s) && s.toLeft != [] && Gets(s.left, w, s.toLeft[0])
    ensures Inv(s.(left := w, toLeft := s.toLeft[1..]))
  {
    hide LocalOk, Half, AskerGets, AnswererGets;
    AskerGetsHalf(s.left, w, s.right, s.toRight, s.toLeft);
    AnswererGetsHalf(s.right, s.left, w, s.toLeft, s.toRight);
  }

  lemma LeftStepInv(s: System, event: Event, t: System)
    requires Inv(s) && LeftStep(s, event, t)
    ensures Inv(t)
  {
    hide Inv, Half, LocalOk, Sends, Gets, Handle, Do, Ready;
    InvParts(s);
    match event
    case Act(a) =>
      DoSends(s.left, a);
      SendInv(s, Do(s.left, a).0, Do(s.left, a).1);
    case Receive(called, leads) =>
      NextIsReady(s.right, s.left, s.toLeft, s.toRight);
      var mid := HandleGets(s.left, s.toLeft[0], called, leads);
      ReceiveInv(s, mid);
      var x := s.(left := mid, toLeft := s.toLeft[1..]);
      var r := Handle(s.left, s.toLeft[0], called, leads);
      if r.out != [] {
        SendInv(x, r.vat, r.out[0]);
        assert r.out == [r.out[0]];
      } else {
        assert s.toRight + [] == s.toRight;
      }
  }

  lemma InvParts(s: System)
    requires Inv(s)
    ensures LocalOk(s.left) && LocalOk(s.right)
    ensures Half(s.left, s.right, s.toRight, s.toLeft) && Half(s.right, s.left, s.toLeft, s.toRight)
    ensures Inv(Mirror(s))
  {
  }

  lemma MirrorInv(s: System)
    requires Inv(Mirror(s))
    ensures Inv(s)
  {
  }

  /** Every step of either vat keeps the invariant. */
  lemma StepInv(s: System, t: System)
    requires Inv(s) && Step(s, t)
    ensures Inv(t)
  {
    hide Inv, LeftStep;
    InvParts(s);
    var event: Event :| LeftStep(s, event, t) || LeftStep(Mirror(s), event, Mirror(t));
    if LeftStep(s, event, t) {
      LeftStepInv(s, event, t);
    } else {
      LeftStepInv(Mirror(s), event, Mirror(t));
      MirrorInv(t);
    }
  }

  lemma {:induction false} RunInv(states: seq<System>, k: nat)
    requires Run(states) && k < |states|
    ensures Inv(states[k])
  {
    hide Inv, Step, Init;
    if k == 0 {
      InitInv(states[0]);
    } else {
      RunInv(states, k - 1);
      StepInv(states[k - 1], states[k]);
    }
  }

  lemma ReachableInv(s: System)
    requires Reachable(s)
    ensures Inv(s) && Inv(Mirror(s))
  {
    hide Inv;
    var states: seq<System> :| Run(states) && s == states[|states| - 1];
    RunInv(states, |states| - 1);
    InvParts(s);
  }

  // ---------------------------------------------------------------- theorems

  /** Reference counts balance: an export's count is the descriptors for it that the peer is still to import,
      the peer's own count, the counts in `Release` messages on their way, and what `Finish` messages on their
      way are going to release from results whose question was dropped first. */
  lemma ReferencesBalance(s: System, e: nat)
    requires Reachable(s)
    ensures RefCount(s.right, e) ==
      Sum(s.toLeft, Refs(e, Held(s.left))) + ImportRefs(s.left, e)
      + Sum(s.toRight, Releases(e)) + WillFinish(e, s.toRight, OpenResults(s.right))
    ensures Has(s.right.exports, e) <==> RefCount(s.right, e) > 0
  {
    ReachableInv(s);
    assert Balanced(s.left, s.right, s.toRight, s.toLeft, e);
  }

  /** With nothing in flight, each vat exports exactly what the other imports, reference for reference, and
      answers exactly what the other has asked: nothing has leaked. */
  lemma QuietMeansSettled(s: System)
    requires Reachable(s) && s.toRight == [] && s.toLeft == []
    ensures forall e: nat :: RefCount(s.right, e) == ImportRefs(s.left, e)
    ensures forall e: nat :: Has(s.right.exports, e) <==> e in s.left.imports
    ensures forall q: nat :: Open(s.right, q) <==> HasRef(s.left, q)
    ensures forall q: nat :: Unreturned(s.right, q) <==> Awaiting(s.left, q)
  {
    ReachableInv(s);
    forall e: nat
      ensures RefCount(s.right, e) == ImportRefs(s.left, e) && (Has(s.right.exports, e) <==> e in s.left.imports)
    {
      assert Balanced(s.left, s.right, s.toRight, s.toLeft, e);
    }
    forall q: nat
      ensures (Open(s.right, q) <==> HasRef(s.left, q)) && (Unreturned(s.right, q) <==> Awaiting(s.left, q))
    {
      assert QuestionOk(s.left, s.right, s.toRight, s.toLeft, q);
    }
  }

  /** Whatever comes next can be delivered: every target and descriptor names a live export or an answer with
      its pipeline, a new question's id is not in use, a `Return` is awaited and not canceled while its
      question is referenced, a `Finish` meets its answer, a release is covered, an embargo id is known, and a
      promise is new to its importer. */
  lemma NothingDangles(s: System)
    requires Reachable(s) && s.toLeft != []
    ensures Ready(s.left, s.toLeft[0])
  {
    hide Half, LocalOk, Ready;
    ReachableInv(s);
    InvParts(s);
    NextIsReady(s.right, s.left, s.toLeft, s.toRight);
  }

  /** So of all the ways in which a message can end the connection only two are left: a `Resolve` for an import
      that is not a promise, and a `senderLoopback` for what does not lead back. */
  lemma OnlyTwoErrors(s: System, called: bool, leads: Hook)
    requires Reachable(s) && s.toLeft != []
    ensures LocalOk(s.left)
    ensures var r := Handle(s.left, s.toLeft[0], called, leads);
      r.Err? ==>
        || (s.toLeft[0].Resolve? && r.error == ResolveOfNonPromise)
        || (s.toLeft[0].Disembargo? && r.error == NotLoopback)
  {
    hide Inv, LocalOk, Handle;
    ReachableInv(s);
    InvErrors(s, called, leads);
  }

  lemma InvErrors(s: System, called: bool, leads: Hook)
    requires Inv(s) && s.toLeft != []
    ensures LocalOk(s.left)
    ensures var r := Handle(s.left, s.toLeft[0], called, leads);
      r.Err? ==>
        || (s.toLeft[0].Resolve? && r.error == ResolveOfNonPromise)
        || (s.toLeft[0].Disembargo? && r.error == NotLoopback)
  {
    hide Half, LocalOk, Ready, Handle, Gets, Sends;
    InvParts(s);
    NextIsReady(s.right, s.left, s.toLeft, s.toRight);
    var mid := HandleGets(s.left, s.toLeft[0], called, leads);
  }

  /** An id that is free has no trace: no question or `Return` of that id is in flight, nothing is being
      answered, and if the peer still keeps an answer then the `Finish` for it is already on its way. */
  lemma FreeIdIsClean(s: System, q: nat)
    requires Reachable(s) && !Has(s.left.questions, q)
    ensures Sum(s.toRight, Asks(q)) == 0 && Sum(s.toLeft, Rets(q)) == 0 && !Unreturned(s.right, q)
    ensures q in s.right.answers ==> Sum(s.toRight, Mentions(q)) > 0
  {
    ReachableInv(s);
    assert QuestionOk(s.left, s.right, s.toRight, s.toLeft, q);
    AfterNoAsk(q, s.toRight, Open(s.right, q));
  }

  /** An answer goes only when both its `Return` has been sent and its `Finish` has come: by the `Finish`, or by a
      `Return` after it, which then says `Canceled` and carries nothing. */
  lemma AnswerLifecycle(s: System, event: Event, t: System, q: nat)
    requires LeftStep(s, event, t) && q in s.left.answers && q !in t.left.answers
    ensures
      || (event.Receive? && IsFinish(s.toLeft[0], q) && s.left.answers[q].returnSent && t.toRight == s.toRight)
      || (event.Act? && s.left.answers[q].finished && t.toRight == s.toRight + [Return(q, Canceled)])
  {
    hide LocalOk;
    match event
    case Act(a) => ActKeepsAnswers(s.left, a, q);
    case Receive(called, leads) => ReceiveKeepsAnswers(s.left, s.toLeft[0], called, leads, q);
  }

  lemma ActKeepsAnswers(v: Vat, a: Action, q: nat)
    requires LocalOk(v) && Enabled(v, a) && q in v.answers
    ensures q in Do(v, a).0.answers || (v.answers[q].finished && Do(v, a).1 == Return(q, Canceled))
  {
    hide QuestionsOk, AnswersOk, ExportsOk, ImportsOk, ByCapOk;
    hide WriteDescriptors, WriteDescriptor, RefCount, CapRefs, Occurs, DescRefs, NextId;
    match a
    case SendCall(_, caps) => WriteDescriptorsOk(v, caps);
    case SendReturn(p, Some(caps)) => WriteDescriptorsOk(EndCall(v, p), caps);
    case ResolveExport(e, Some(hook)) =>
      RepointOk(v, e, hook);
      WriteDescriptorOk(Repoint(v, e, hook), hook);
    case _ =>
  }

  lemma ReceiveKeepsAnswers(v: Vat, m: Msg, called: bool, leads: Hook, q: nat)
    requires LocalOk(v) && q in v.answers && Handle(v, m, called, leads).Ok?
    ensures var r := Handle(v, m, called, leads);
      q in r.vat.answers || (IsFinish(m, q) && v.answers[q].returnSent && r.out == [])
  {
    hide LocalOk, WriteDescriptors, ReceiveCaps, ReleaseExports, RefCount, CapRefs, Occurs, NextId, ImportRefs;
    match m
    case Bootstrap(p) => BootstrapAnswered(v, p); WriteSame(v);
    case Call(_, _, caps) => ReceiveCapsOk(v, caps);
    case Return(p, Results(caps)) =>
      ReceiveCapsOk(Settle(v, p, Results(caps)), caps);
    case Finish(p, release) => FinishKeepsAnswers(v, p, release, q);
    case _ =>
  }

  lemma WriteSame(v: Vat)
    requires LocalOk(v)
    ensures WriteDescriptors(v, [Some(v.boot)]).vat.answers == v.answers
  {
    hide ExportsOk, ByCapOk;
    WriteDescriptorsOk(v, [Some(v.boot)]);
  }

  lemma FinishKeepsAnswers(v: Vat, p: nat, release: bool, q: nat)
    requires LocalOk(v) && q in v.answers && HandleFinish(v, p, release).Ok?
    ensures var r := HandleFinish(v, p, release); q in r.vat.answers || (p == q && v.answers[q].returnSent)
  {
    var a := v.answers[p];
    var w := CloseAnswer(v, p, release);
    assert LocalOk(w);
    ReleaseExportsOk(w, if release then a.resultExports else []);
    hide LocalOk, ReleaseExports, RefCount, Occurs;
  }

  /** At most one `Return` answers a question, and only one that was asked and still awaits it. */
  lemma OneReturn(s: System, q: nat)
    requires Reachable(s)
    ensures Sum(s.toRight, Asks(q)) + One(Unreturned(s.right, q)) + Sum(s.toLeft, Rets(q)) == One(Awaiting(s.left, q))
    ensures Sum(s.toLeft, Cancels(q)) > 0 ==> !HasRef(s.left, q)
  {
    ReachableInv(s);
    assert QuestionOk(s.left, s.right, s.toRight, s.toLeft, q);
  }

  /** The reverse map only ever points to a live export that still has that capability. */
  lemma DedupIsSound(s: System, ptr: nat)
    requires Reachable(s) && ptr in s.left.byCap
    ensures var e := s.left.byCap[ptr];
      Has(s.left.exports, e) && IsLocal(s.left.exports[e].value.hook) && s.left.exports[e].value.hook.ptr == ptr
  {
    ReachableInv(s);
  }

  /** An embargo is lifted once: its `Disembargo` is on its way there, waiting there, or on its way back. */
  lemma EmbargoesBalance(s: System, id: nat)
    requires Reachable(s)
    ensures Sum(s.toRight, Loops(id)) + Tasks(s.right.loopbacks, id) + Sum(s.toLeft, Echoes(id)) ==
      One(Has(s.left.embargoes, id))
  {
    ReachableInv(s);
    assert EmbargoOk(s.left, s.right, s.toRight, s.toLeft, id);
  }
}
