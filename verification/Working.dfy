/** Calls that have come in are worked on until they return: nothing else takes one up or drops it. */
module Working {
  import opened Options
  import opened IdTable
  import opened Rpc
  import opened Traffic
  import opened PeerView
  import opened VatSteps
  import opened TwoVats
  import opened RpcRuns

  // ------------------------------------------------------------- one vat's steps

  /** The work on `q` is there before and after, and the same. */
  predicate StillWorks(v: Vat, w: Vat, q: nat) {
    q in v.running && q in w.running && w.running[q] == v.running[q]
  }

  /** Every answer whose `Return` is still to be sent is being worked on. */
  ghost predicate AllWorked(v: Vat) {
    forall q | q in v.answers && !v.answers[q].returnSent :: q in v.running
  }

  lemma WriteKeepsWork(v: Vat, caps: seq<Option<Hook>>)
    requires LocalOk(v)
    ensures var w := WriteDescriptors(v, caps).vat; w.running == v.running && w.answers == v.answers && w.boot == v.boot
  {
  }

  lemma RespondWork(v: Vat, q: nat, results: Option<seq<Option<Hook>>>)
    requires LocalOk(v) && q in v.answers && q !in v.running
    ensures var w := Respond(v, q, results).0;
      && w.running == v.running && w.boot == v.boot
      && (forall k | k in w.answers :: k in v.answers)
      && (forall k | k in w.answers && k != q :: w.answers[k] == v.answers[k])
      && (q in w.answers ==> w.answers[q].returnSent)
  {
    hide LocalOk, WriteDescriptors;
    if results.Some? { WriteKeepsWork(v, results.value); }
  }

  /** A vat does not take up work of its own accord, and ends it only by a `Return`. */
  lemma DoWork(v: Vat, a: Action)
    requires LocalOk(v) && Enabled(v, a)
    ensures var (w, m) := Do(v, a);
      && (forall q | q in v.running :: StillWorks(v, w, q) || (a.SendReturn? && IsReturn(m, q) && q !in w.running))
      && (forall q | q in w.running :: q in v.running)
      && (AllWorked(v) ==> AllWorked(w))
      && w.boot == v.boot
  {
    hide QuestionsOk, AnswersOk, ExportsOk, ImportsOk, ByCapOk, WriteDescriptors, WriteDescriptor, NextId, Respond;
    match a
    case SendCall(_, caps) => WriteKeepsWork(v, caps);
    case SendReturn(q, results) =>
      RespondWork(EndCall(v, q), q, results);
      RespondAnswers(EndCall(v, q), q, results);
    case ResolveExport(e, Some(hook)) =>
      RepointOk(v, e, hook);
      WriteDescriptorOk(Repoint(v, e, hook), hook);
      hide LocalOk, RefCount, DescRefs;
    case _ =>
  }

  lemma RespondAnswers(v: Vat, q: nat, results: Option<seq<Option<Hook>>>)
    requires LocalOk(v) && q in v.answers && q !in v.running
    ensures IsReturn(Respond(v, q, results).1, q)
  {
    hide LocalOk, WriteDescriptors;
  }

  ghost predicate TakesWork(v: Vat, w: Vat, m: Msg) {
    && (forall q | q in v.running :: StillWorks(v, w, q))
    && (forall q | q in w.running && q !in v.running :: m.Call? && m.question == q)
    && (m.Call? ==> m.question in w.running)
    && (AllWorked(v) ==> AllWorked(w))
    && w.boot == v.boot
  }

  lemma QuietWork(v: Vat, w: Vat, m: Msg)
    requires !m.Call? && w.running == v.running && w.boot == v.boot
    requires forall q | q in w.answers && q !in v.answers :: w.answers[q].returnSent
    requires forall q | q in w.answers && q in v.answers :: w.answers[q].returnSent == v.answers[q].returnSent
    ensures TakesWork(v, w, m)
  {
  }

  /** Only a `Call` starts work, on the answer of its id, and no message ends any. */
  lemma HandleWork(v: Vat, m: Msg, called: bool, leads: Hook)
    requires LocalOk(v) && Handle(v, m, called, leads).Ok?
    ensures TakesWork(v, Handle(v, m, called, leads).vat, m)
  {
    hide LocalOk, TakesWork, HandleBootstrap, HandleCall, HandleReturn, HandleFinish, HandleResolve;
    match m
    case Bootstrap(q) => BootstrapWork(v, q);
    case Call(q, target, caps) => CallWork(v, q, target, caps);
    case Return(q, ret) => ReturnWork(v, q, ret);
    case Finish(q, release) => FinishWork(v, q, release);
    case Resolve(p, resolution) => ResolveWork(v, p, resolution, called);
    case Release(id, count) => QuietWork(v, HandleRelease(v, id, count).vat, m);
    case Disembargo(target, context) => QuietWork(v, HandleDisembargo(v, target, context, leads).vat, m);
  }

  lemma BootstrapWork(v: Vat, q: nat)
    requires LocalOk(v) && HandleBootstrap(v, q).Ok?
    ensures TakesWork(v, HandleBootstrap(v, q).vat, Bootstrap(q))
  {
    hide LocalOk, TakesWork, Respond;
    NotRunning(v, q);
    RespondWork(AddAnswer(v, q), q, Some([Some(v.boot)]));
    QuietWork(v, HandleBootstrap(v, q).vat, Bootstrap(q));
  }

  lemma ResolveWork(v: Vat, p: nat, resolution: Resolution, called: bool)
    requires LocalOk(v) && HandleResolve(v, p, resolution, called).Ok?
    ensures TakesWork(v, HandleResolve(v, p, resolution, called).vat, Resolve(p, resolution))
  {
    hide LocalOk, TakesWork;
    ResolveTouches(v, p, resolution, called);
    hide HandleResolve;
    QuietWork(v, HandleResolve(v, p, resolution, called).vat, Resolve(p, resolution));
  }

  lemma ResolveTouches(v: Vat, p: nat, resolution: Resolution, called: bool)
    requires LocalOk(v) && HandleResolve(v, p, resolution, called).Ok?
    ensures var w := HandleResolve(v, p, resolution, called).vat;
      w.running == v.running && w.answers == v.answers && w.boot == v.boot
  {
    hide LocalOk, Received, LeadsOver, NextId, Put, ReceiveCap;
    if resolution.ToCap? { ReceiveCapTouches(v, resolution.desc); }
  }

  lemma ReceiveCapTouches(v: Vat, desc: Desc)
    ensures var w := ReceiveCap(v, desc); w == v.(imports := w.imports)
  {
  }

  lemma ReturnWork(v: Vat, q: nat, ret: Ret)
    requires LocalOk(v) && HandleReturn(v, q, ret).Ok?
    ensures TakesWork(v, HandleReturn(v, q, ret).vat, Return(q, ret))
  {
    hide LocalOk, TakesWork, ReceiveCaps, ReceivedAll;
    if ret.Results? { ReceiveCapsOk(Settle(v, q, ret), ret.caps); }
    QuietWork(v, HandleReturn(v, q, ret).vat, Return(q, ret));
  }

  lemma CallWork(v: Vat, q: nat, target: Target, caps: seq<Desc>)
    requires LocalOk(v) && HandleCall(v, q, target, caps).Ok?
    ensures TakesWork(v, HandleCall(v, q, target, caps).vat, Call(q, target, caps))
  {
    hide LocalOk, ReceiveCaps;
    ReceiveCapsOk(v, caps);
    NotRunning(v, q);
  }

  lemma FinishWork(v: Vat, q: nat, release: bool)
    requires LocalOk(v) && HandleFinish(v, q, release).Ok?
    ensures TakesWork(v, HandleFinish(v, q, release).vat, Finish(q, release))
  {
    hide TakesWork, ReleaseExports, ExportsOk, QuestionsOk, ImportsOk, ByCapOk, Occurs, RefCount;
    var w := CloseAnswer(v, q, release);
    assert LocalOk(w);
    hide LocalOk;
    ReleaseExportsOk(w, if release then v.answers[q].resultExports else []);
    QuietWork(v, HandleFinish(v, q, release).vat, Finish(q, release));
  }

  // ------------------------------------------------------------------ runs

  /** What is being worked on stays as it is until its `Return` is sent. */
  lemma WorkStays(s: System, event: Event, t: System, q: nat)
    requires LeftStep(s, event, t) && q in s.left.running
    ensures
      || StillWorks(s.left, t.left, q)
      || (event.Act? && event.action.SendReturn? && exists ret: Ret :: t.toRight == s.toRight + [Return(q, ret)])
  {
    hide LocalOk, Do, Handle;
    match event
    case Act(a) =>
      DoWork(s.left, a);
      var m := Do(s.left, a).1;
      if IsReturn(m, q) { assert m == Return(q, m.ret); }
    case Receive(called, leads) => HandleWork(s.left, s.toLeft[0], called, leads);
  }

  ghost predicate WorkInv(s: System) {
    AllWorked(s.left) && AllWorked(s.right)
  }

  lemma StepWorked(s: System, t: System)
    requires WorkInv(s) && Step(s, t)
    ensures WorkInv(t) && t.left.boot == s.left.boot && t.right.boot == s.right.boot
  {
    hide LocalOk, Do, Handle, AllWorked;
    var event: Event :| LeftStep(s, event, t) || LeftStep(Mirror(s), event, Mirror(t));
    var here := LeftStep(s, event, t);
    var v, m := if here then s.left else s.right, if here then s.toLeft else s.toRight;
    match event
    case Act(a) => DoWork(v, a);
    case Receive(called, leads) => HandleWork(v, m[0], called, leads);
  }

  lemma {:induction false} RunWorked(states: seq<System>, k: nat)
    requires Run(states) && k < |states|
    ensures WorkInv(states[k]) && states[k].left.boot == states[0].left.boot
  {
    hide Step;
    if k == 0 {
    } else {
      RunWorked(states, k - 1);
      StepWorked(states[k - 1], states[k]);
    }
  }

  /** In every reachable state, exactly the answers that have not returned are being worked on. */
  lemma UnreturnedIsWorked(s: System, q: nat)
    requires Reachable(s)
    ensures Unreturned(s.left, q) <==> q in s.left.running
    ensures LocalOk(s.left) && (Unreturned(s.left, q) <==> Enabled(s.left, SendReturn(q, None)))
  {
    hide Step, Half, Init;
    var states: seq<System> :| Run(states) && s == states[|states| - 1];
    RunWorked(states, |states| - 1);
    ReachableInv(s);
  }

  /** So with nothing in flight and nothing being worked on, nobody waits. */
  lemma IdleMeansAnswered(s: System, q: nat)
    requires Reachable(s) && s.toRight == [] && s.toLeft == [] && s.right.running == map[]
    ensures !Awaiting(s.left, q)
  {
    QuietMeansSettled(s);
    hide Step, Half, Init, LocalOk;
    var states: seq<System> :| Run(states) && s == states[|states| - 1];
    RunWorked(states, |states| - 1);
  }
}
