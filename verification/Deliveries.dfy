/** What arrives at the other end. An export that is referenced stays the capability it is, however ids are used
    again; so a call arrives at what it was made on, with what it was given, and its results come back as
    what they were. */
module Deliveries {
  import opened Options
  import opened IdTable
  import opened Rpc
  import opened Traffic
  import opened PeerView
  import opened VatSteps
  import opened TwoVats
  import opened RpcRuns
  import opened Loopbacks
  import opened Naming

  // ------------------------------------------------------- exports stay what they are

  /** Export `e` is there before and after, and is the same capability, or what that promise has resolved to. */
  predicate Kept(v: Vat, w: Vat, e: nat) {
    && Has(v.exports, e) && Has(w.exports, e)
    && (w.exports[e].value.resolving ==> v.exports[e].value.resolving)
    && (|| w.exports[e].value.hook == v.exports[e].value.hook
        || (v.exports[e].value.resolving && !w.exports[e].value.resolving))
  }

  lemma KeptThrough(v: Vat, w: Vat, x: Vat, e: nat)
    requires Kept(v, w, e) && Kept(w, x, e)
    ensures Kept(v, x, e)
  {
  }

  lemma KeptSame(v: Vat, w: Vat)
    requires w.exports == v.exports
    ensures forall e: nat | Has(v.exports, e) :: Kept(v, w, e)
  {
  }

  lemma WriteKeeps(v: Vat, hook: Hook)
    requires LocalOk(v)
    ensures forall e: nat | Has(v.exports, e) :: Kept(v, WriteDescriptor(v, hook).vat, e)
  {
    hide LocalOk, WriteDescriptor;
    forall e: nat | Has(v.exports, e) ensures Kept(v, WriteDescriptor(v, hook).vat, e) {
      WriteKeepsExport(v, hook, e);
    }
  }

  lemma {:induction false} WriteAllKeeps(v: Vat, caps: seq<Option<Hook>>)
    requires LocalOk(v)
    ensures forall e: nat | Has(v.exports, e) :: Kept(v, WriteDescriptors(v, caps).vat, e)
  {
    hide LocalOk, WriteDescriptor, Kept;
    if caps == [] {
      KeptSame(v, v);
    } else {
      var n := |caps| - 1;
      WriteAllKeeps(v, caps[..n]);
      var x, w := WriteDescriptors(v, caps[..n]).vat, WriteDescriptors(v, caps).vat;
      if caps[n].Some? {
        WriteKeeps(x, caps[n].value);
        forall e: nat | Has(v.exports, e) ensures Kept(v, w, e) { KeptNext(v, x, w, e); }
      }
    }
  }

  lemma KeptNext(v: Vat, x: Vat, w: Vat, e: nat)
    requires Kept(v, x, e) && (Has(x.exports, e) ==> Kept(x, w, e))
    ensures Kept(v, w, e)
  {
  }

  lemma RespondKeeps(v: Vat, q: nat, results: Option<seq<Option<Hook>>>)
    requires LocalOk(v) && q in v.answers && q !in v.running
    ensures forall e: nat | Has(v.exports, e) :: Kept(v, Respond(v, q, results).0, e)
  {
    hide LocalOk, WriteDescriptors, Kept;
    var w := Respond(v, q, results).0;
    if v.answers[q].finished || results.None? {
      KeptSame(v, w);
    } else {
      WriteAllKeeps(v, results.value);
      KeptBy(v, WriteDescriptors(v, results.value).vat, w);
    }
  }

  lemma KeptBy(v: Vat, x: Vat, w: Vat)
    requires w.exports == x.exports && forall e: nat | Has(v.exports, e) :: Kept(v, x, e)
    ensures forall e: nat | Has(v.exports, e) :: Kept(v, w, e)
  {
  }

  /** Nothing that a vat does of its own accord takes an export away, or makes it another. */
  lemma DoKeeps(v: Vat, a: Action)
    requires LocalOk(v) && Enabled(v, a)
    ensures forall e: nat | Has(v.exports, e) :: Kept(v, Do(v, a).0, e)
  {
    hide QuestionsOk, AnswersOk, ExportsOk, ImportsOk, ByCapOk;
    hide WriteDescriptors, WriteDescriptor, Kept, NextId, Respond;
    var w := Do(v, a).0;
    match a
    case SendCall(_, caps) =>
      WriteAllKeeps(v, caps);
      KeptBy(v, WriteDescriptors(v, caps).vat, w);
    case SendReturn(q, results) =>
      KeptSame(v, EndCall(v, q));
      RespondKeeps(EndCall(v, q), q, results);
      KeptFrom(v, EndCall(v, q), w);
    case ResolveExport(e, resolution) => ResolveKeeps(v, e, resolution);
    case _ => KeptSame(v, w);
  }

  lemma KeptFrom(v: Vat, x: Vat, w: Vat)
    requires x.exports == v.exports && forall e: nat | Has(x.exports, e) :: Kept(x, w, e)
    ensures forall e: nat | Has(v.exports, e) :: Kept(v, w, e)
  {
  }

  lemma ResolveKeeps(v: Vat, e: nat, resolution: Option<Hook>)
    requires LocalOk(v) && Enabled(v, ResolveExport(e, resolution))
    ensures forall k: nat | Has(v.exports, k) :: Kept(v, Do(v, ResolveExport(e, resolution)).0, k)
  {
    if resolution.Some? {
      var hook := resolution.value;
      RepointOk(v, e, hook);
      var x := Repoint(v, e, hook);
      var w := WriteDescriptor(x, hook).vat;
      assert forall k: nat | Has(v.exports, k) :: Kept(v, x, k);
      WriteKeeps(x, hook);
      hide Repoint, WriteDescriptor, LocalOk, Kept;
      forall k: nat | Has(v.exports, k) ensures Kept(v, w, k) { KeptNext(v, x, w, k); }
    }
  }

  lemma ReleaseKeeps(v: Vat, id: nat, count: nat)
    ensures var r := ReleaseExport(v, id, count);
      r.Some? ==> forall e: nat | Has(r.value.exports, e) :: Kept(v, r.value, e)
  {
  }

  lemma {:induction false} ReleaseAllKeeps(v: Vat, ids: seq<nat>)
    ensures var r := ReleaseExports(v, ids);
      r.Some? ==> forall e: nat | Has(r.value.exports, e) :: Kept(v, r.value, e)
  {
    hide ReleaseExport, Kept;
    if ids == [] {
      KeptSame(v, v);
    } else {
      var n := |ids| - 1;
      ReleaseAllKeeps(v, ids[..n]);
      var x, r := ReleaseExports(v, ids[..n]), ReleaseExports(v, ids);
      if x.Some? {
        ReleaseKeeps(x.value, ids[n], 1);
        if r.Some? {
          forall e: nat | Has(r.value.exports, e) ensures Kept(v, r.value, e) { KeptBack(v, x.value, r.value, e); }
        }
      }
    }
  }

  lemma KeptBack(v: Vat, x: Vat, w: Vat, e: nat)
    requires Kept(x, w, e) && (Has(x.exports, e) ==> Kept(v, x, e))
    ensures Kept(v, w, e)
  {
  }

  /** A message may take an export away, but does not make it another. */
  lemma HandleKeeps(v: Vat, m: Msg, called: bool, leads: Hook)
    requires LocalOk(v) && Handle(v, m, called, leads).Ok?
    ensures var w := Handle(v, m, called, leads).vat;
      forall e: nat | Has(v.exports, e) && Has(w.exports, e) :: Kept(v, w, e)
  {
    if m.Call? || m.Return? || m.Resolve? || m.Disembargo? { ExportsUntouched(v, m, called, leads); }
    hide LocalOk, Kept, Respond, HandleCall, HandleReturn, HandleResolve, HandleDisembargo, HandleFinish;
    var w := Handle(v, m, called, leads).vat;
    match m
    case Bootstrap(q) =>
      NotRunning(v, q);
      RespondKeeps(AddAnswer(v, q), q, Some([Some(v.boot)]));
      KeptFrom(v, AddAnswer(v, q), w);
    case Finish(q, release) => FinishKeeps(v, q, release);
    case Release(id, count) => ReleaseKeeps(v, id, count);
    case _ => KeptSame(v, w);
  }

  lemma FinishKeeps(v: Vat, q: nat, release: bool)
    requires LocalOk(v) && HandleFinish(v, q, release).Ok?
    ensures var w := HandleFinish(v, q, release).vat;
      forall e: nat | Has(v.exports, e) && Has(w.exports, e) :: Kept(v, w, e)
  {
    hide LocalOk, ReleaseExports;
    ReleaseAllKeeps(CloseAnswer(v, q, release), if release then v.answers[q].resultExports else []);
  }

  lemma StepKeeps(s: System, t: System, e: nat)
    requires Step(s, t) && Has(s.left.exports, e) && Has(t.left.exports, e)
    ensures Kept(s.left, t.left, e)
  {
    hide LocalOk, Do, Handle, Kept;
    var event: Event :| LeftStep(s, event, t) || LeftStep(Mirror(s), event, Mirror(t));
    if LeftStep(s, event, t) {
      match event
      case Act(a) => DoKeeps(s.left, a);
      case Receive(called, leads) => HandleKeeps(s.left, s.toLeft[0], called, leads);
    } else {
      KeptSame(s.left, t.left);
    }
  }

  lemma MirrorStep(s: System, t: System)
    requires Step(s, t)
    ensures Step(Mirror(s), Mirror(t))
  {
    hide LeftStep;
    var event: Event :| LeftStep(s, event, t) || LeftStep(Mirror(s), event, Mirror(t));
    if LeftStep(s, event, t) { OnRight(Mirror(s), event, Mirror(t)); } else { OnLeft(Mirror(s), event, Mirror(t)); }
  }

  /** An export that is there all the time is one capability. */
  lemma {:induction false} RunKeeps(states: seq<System>, i: nat, n: nat, e: nat)
    requires Run(states) && i <= n < |states|
    requires forall x | i <= x <= n :: Has(states[x].right.exports, e)
    ensures Kept(states[i].right, states[n].right, e)
    decreases n - i
  {
    hide Step, Init, Kept;
    if i == n {
      KeptSame(states[i].right, states[i].right);
    } else {
      RunKeeps(states, i, n - 1, e);
      MirrorStep(states[n - 1], states[n]);
      StepKeeps(Mirror(states[n - 1]), Mirror(states[n]), e);
      KeptThrough(states[i].right, states[n - 1].right, states[n].right, e);
    }
  }

  // -------------------------------------------------------------- references

  /** Somebody on the left counts on export `e` of the right vat: it is imported, about to be, or being used. */
  predicate Referenced(s: System, e: nat) {
    || e in s.left.imports
    || Sum(s.toLeft, Refs(e, Held(s.left))) > 0
    || exists k | 0 <= k < |s.toRight| :: Uses(s.toRight[k], ImportedCap(e))
  }

  lemma ReferencedIsLive(s: System, e: nat)
    requires Inv(s) && Referenced(s, e)
    ensures Has(s.right.exports, e)
  {
    hide LocalOk;
    assert Balanced(s.left, s.right, s.toRight, s.toLeft, e) && Backed(ImportRefs(s.left, e), s.toRight, e);
    if e in s.left.imports {
      assert ImportsOk(s.left.imports) by { ImportsAre(s.left); }
    } else if k :| 0 <= k < |s.toRight| && Uses(s.toRight[k], ImportedCap(e)) {
      SumOfRest(s.toRight, k + 1, Releases(e));
    }
  }

  /** As long as an export is referenced without a break it is one capability, or what that promise has resolved
      to, even though ids are used again. */
  lemma ReferencedIsKept(states: seq<System>, i: nat, n: nat, e: nat)
    requires Run(states) && i <= n < |states|
    requires forall x | i <= x <= n :: Referenced(states[x], e)
    ensures Kept(states[i].right, states[n].right, e)
  {
    hide Kept, Run, Inv, Referenced;
    forall x | i <= x <= n ensures Has(states[x].right.exports, e) {
      RunInv(states, x);
      ReferencedIsLive(states[x], e);
    }
    RunKeeps(states, i, n, e);
  }

  // ---------------------------------------------------------- capabilities arrive

  /** What the left vat named `cap` and what the right vat has got are one capability. */
  predicate Arrives(was: System, now: System, cap: Option<Hook>, got: Got) {
    match cap
    case None => got == Nothing
    case Some(Imported(e)) => Kept(was.right, now.right, e) && got == Client(now.right.exports[e].value.hook)
    case Some(Pipelined(q)) => got == OfAnswer(q) && Open(now.right, q)
    case Some(hook) =>
      && got.Client? && got.hook.Imported?
      && Hosts(was.left, got.hook.id, hook.ptr) && Kept(was.left, now.left, got.hook.id)
  }

  predicate ArriveAll(was: System, now: System, caps: seq<Option<Hook>>, gots: seq<Got>) {
    |gots| == |caps| && forall k | 0 <= k < |caps| :: Arrives(was, now, caps[k], gots[k])
  }

  /** A message to the right is under way, and if it is a `Return` then its question is still held. */
  predicate UnderWay(s: System, m: Msg) {
    m in s.toRight && (m.Return? ==> HasRef(s.right, m.answer))
  }

  predicate IsNext(s: System, m: Msg) {
    s.toRight != [] && s.toRight[0] == m
  }

  lemma {:induction false} SumHas(ms: seq<Msg>, m: Msg, w: Weight)
    requires m in ms
    ensures Sum(ms, w) >= Weigh(m, w)
  {
    if ms[0] == m {
    } else {
      SumHas(ms[1..], m, w);
    }
  }

  /** The sender's own exports that a message carries are referenced while it is under way. */
  lemma CarriedIsReferenced(s: System, m: Msg, desc: Desc)
    requires UnderWay(s, m) && desc in Caps(m) && (desc.SenderHosted? || desc.SenderPromise?)
    ensures Referenced(Mirror(s), desc.id)
  {
    var e, held := desc.id, Held(s.right);
    SumHas(s.toRight, m, Refs(e, held));
    DescCounts(Caps(m), desc, e);
    assert m.Return? ==> m.answer in held;
  }

  lemma {:induction false} DescCounts(descs: seq<Desc>, desc: Desc, e: nat)
    requires desc in descs && DescRefs(desc, e) > 0
    ensures CapRefs(descs, e) > 0
  {
    if descs[|descs| - 1] == desc {
    } else {
      DescCounts(descs[..|descs| - 1], desc, e);
    }
  }

  /** What a message names of the receiver's is referenced while it is under way. */
  lemma NamedIsReferenced(s: System, m: Msg, e: nat)
    requires m in s.toRight && Uses(m, ImportedCap(e))
    ensures Referenced(s, e)
  {
    var k :| 0 <= k < |s.toRight| && s.toRight[k] == m;
  }

  lemma MirrorRun(states: seq<System>, mirrored: seq<System>)
    requires Run(states) && |mirrored| == |states|
    requires forall x | 0 <= x < |states| :: mirrored[x] == Mirror(states[x])
    ensures Run(mirrored)
  {
    hide Step;
    forall x | 0 < x < |mirrored| ensures Step(mirrored[x - 1], mirrored[x]) {
      MirrorStep(states[x - 1], states[x]);
    }
  }

  function Mirrored(states: seq<System>): (mirrored: seq<System>)
    ensures |mirrored| == |states| && forall x | 0 <= x < |states| :: mirrored[x] == Mirror(states[x])
  {
    seq(|states|, x requires 0 <= x < |states| => Mirror(states[x]))
  }

  /** An export of the left vat that is described in a message stays what it is while that is under way. */
  lemma CarriedIsKept(states: seq<System>, i: nat, n: nat, m: Msg, desc: Desc)
    requires Run(states) && i <= n < |states| && forall x | i <= x <= n :: UnderWay(states[x], m)
    requires desc in Caps(m) && (desc.SenderHosted? || desc.SenderPromise?)
    ensures Kept(states[i].left, states[n].left, desc.id)
  {
    hide Run, Kept, Referenced, UnderWay;
    var mirrored := Mirrored(states);
    MirrorRun(states, mirrored);
    forall x | i <= x <= n ensures Referenced(mirrored[x], desc.id) { CarriedIsReferenced(states[x], m, desc); }
    ReferencedIsKept(mirrored, i, n, desc.id);
  }

  lemma NamedIsKept(states: seq<System>, i: nat, n: nat, m: Msg, e: nat)
    requires Run(states) && i <= n < |states| && forall x | i <= x <= n :: UnderWay(states[x], m)
    requires Uses(m, ImportedCap(e))
    ensures Kept(states[i].right, states[n].right, e)
  {
    hide Run, Kept, Referenced, Uses;
    forall x | i <= x <= n ensures Referenced(states[x], e) { NamedIsReferenced(states[x], m, e); }
    ReferencedIsKept(states, i, n, e);
  }

  /** The next message finds what it names. */
  lemma NextReaches(states: seq<System>, n: nat, t: Target)
    requires Run(states) && n < |states| && states[n].toRight != [] && Uses(states[n].toRight[0], t)
    ensures Reaches(states[n].right, t)
    ensures t.PromisedAnswer? ==> Open(states[n].right, t.question)
  {
    hide Run, Inv, LocalOk, Half;
    RunInv(states, n);
    var s := states[n];
    InvParts(s);
    NextIsReady(s.left, s.right, s.toRight, s.toLeft);
    if t.PromisedAnswer? { PipelinedIsOpen(s.right, t); }
  }

  lemma PipelinedIsOpen(v: Vat, t: Target)
    requires LocalOk(v) && Reaches(v, t) && t.PromisedAnswer?
    ensures Open(v, t.question)
  {
  }

  /** A capability in a message is, when the message is taken in, what it was when it was sent. */
  lemma CapArrives(states: seq<System>, i: nat, n: nat, m: Msg, desc: Desc, cap: Option<Hook>)
    requires Run(states) && i <= n < |states| && forall x | i <= x <= n :: UnderWay(states[x], m)
    requires IsNext(states[n], m) && desc in Caps(m) && Names(states[i].left, desc, cap)
    ensures Arrives(states[i], states[n], cap, Received(states[n].right, desc))
  {
    hide Run, Kept, UnderWay;
    match cap
    case None =>
    case Some(Imported(e)) =>
      assert Uses(m, ImportedCap(e));
      NextReaches(states, n, ImportedCap(e));
      NamedIsKept(states, i, n, m, e);
    case Some(Pipelined(q)) =>
      assert Uses(m, PromisedAnswer(q));
      NextReaches(states, n, PromisedAnswer(q));
    case Some(_) => CarriedIsKept(states, i, n, m, desc);
  }

  lemma CapsArrive(states: seq<System>, i: nat, n: nat, m: Msg, caps: seq<Option<Hook>>)
    requires Run(states) && i <= n < |states| && forall x | i <= x <= n :: UnderWay(states[x], m)
    requires IsNext(states[n], m) && NamesAll(states[i].left, Caps(m), caps)
    ensures ArriveAll(states[i], states[n], caps, ReceivedAll(states[n].right, Caps(m)))
  {
    hide Run, Arrives, Names, Received, UnderWay;
    var gots := ReceivedAll(states[n].right, Caps(m));
    forall k | 0 <= k < |caps| ensures Arrives(states[i], states[n], caps[k], gots[k]) {
      CapArrives(states, i, n, m, Caps(m)[k], caps[k]);
    }
  }

  // --------------------------------------------------------- calls and their replies

  /** A message of which there is only one stays in the queue as long as there is one. */
  lemma OnlyOneStays(s: System, t: System, m: Msg, w: Weight)
    requires Step(s, t) && m in s.toRight && Weigh(m, w) > 0 && Sum(s.toRight, w) <= 1 && Sum(t.toRight, w) > 0
    ensures m in t.toRight
  {
    hide LocalOk, Do, Handle, Weigh;
    var event: Event :| LeftStep(s, event, t) || LeftStep(Mirror(s), event, Mirror(t));
    if LeftStep(s, event, t) {
      assert s.toRight <= t.toRight;
    } else if event.Receive? {
      assert Sum(s.toRight, w) == Weigh(s.toRight[0], w) + Sum(t.toRight, w);
    }
  }

  lemma OnlyOneIsNext(ms: seq<Msg>, m: Msg, w: Weight)
    requires m in ms && Weigh(m, w) > 0 && Weigh(ms[0], w) > 0 && Sum(ms, w) <= 1
    ensures ms[0] == m
  {
    if ms[0] != m { SumHas(ms[1..], m, w); }
  }

  /** There is at most one question, and at most one `Return`, of an id under way. */
  lemma OnlyOne(states: seq<System>, x: nat, q: nat)
    requires Run(states) && x < |states|
    ensures Sum(states[x].toRight, Asks(q)) <= 1 && Sum(states[x].toRight, Rets(q)) <= 1
    ensures Sum(states[x].toRight, Cancels(q)) > 0 ==> !HasRef(states[x].right, q)
  {
    hide Run, LocalOk;
    RunInv(states, x);
    var s := states[x];
    assert QuestionOk(s.left, s.right, s.toRight, s.toLeft, q) && QuestionOk(s.right, s.left, s.toLeft, s.toRight, q);
  }

  lemma {:induction false} StaysUnderWay(states: seq<System>, i: nat, n: nat, m: Msg, w: Weight)
    requires Run(states) && i <= n < |states| && m in states[i].toRight && Weigh(m, w) > 0
    requires forall x | i <= x <= n :: 0 < Sum(states[x].toRight, w) <= 1
    ensures m in states[n].toRight
    decreases n - i
  {
    hide Step, Init;
    if i == n {
    } else {
      StaysUnderWay(states, i, n - 1, m, w);
      OnlyOneStays(states[n - 1], states[n], m, w);
    }
  }

  /** A call arrives at what it was made on, with what it was given. It is made in step `i`, it is under way until
      step `n`, and in that step the right vat takes it in. */
  lemma CallArrives(states: seq<System>, i: nat, n: nat, target: Hook, caps: seq<Option<Hook>>, taken: Event)
    requires Run(states) && i < n && n + 1 < |states|
    requires LeftStep(states[i], Act(SendCall(target, caps)), states[i + 1])
    requires var q := Do(states[i].left, SendCall(target, caps)).1.question;
      && (forall x | i < x <= n :: Sum(states[x].toRight, Asks(q)) > 0)
      && states[n].toRight != [] && IsAsk(states[n].toRight[0], q)
    requires taken.Receive? && LeftStep(Mirror(states[n]), taken, Mirror(states[n + 1]))
    ensures var q := Do(states[i].left, SendCall(target, caps)).1.question;
      && q in states[n + 1].right.running
      && var work := states[n + 1].right.running[q];
         && Arrives(states[i + 1], states[n], Some(target), work.callee)
         && ArriveAll(states[i + 1], states[n], caps, work.params)
  {
    hide Run, LocalOk, Do, Arrives, ArriveAll, NamesAll, ReceivedAll, ReceiveCaps;
    var m := Do(states[i].left, SendCall(target, caps)).1;
    CallSays(states[i].left, target, caps);
    forall x | i < x <= n ensures UnderWay(states[x], m) {
      forall y | i < y <= x ensures 0 < Sum(states[y].toRight, Asks(m.question)) <= 1 {
        OnlyOne(states, y, m.question);
      }
      StaysUnderWay(states, i + 1, x, m, Asks(m.question));
    }
    OnlyOne(states, n, m.question);
    OnlyOneIsNext(states[n].toRight, m, Asks(m.question));
    CapsArrive(states, i + 1, n, m, caps);
    TargetArrives(states, i + 1, n, m, target);
  }

  lemma TargetArrives(states: seq<System>, i: nat, n: nat, m: Msg, target: Hook)
    requires Run(states) && i <= n < |states| && forall x | i <= x <= n :: UnderWay(states[x], m)
    requires IsNext(states[n], m) && m.Call? && Addressed(m.target) == target
    ensures Arrives(states[i], states[n], Some(target), Lookup(states[n].right, m.target))
  {
    hide Run, Kept, UnderWay;
    assert Uses(m, m.target);
    NextReaches(states, n, m.target);
    if target.Imported? { NamedIsKept(states, i, n, m, target.id); }
  }

  /** A reply arrives as what was returned, if its question is still held. */
  lemma ReplyArrives(
      states: seq<System>, i: nat, n: nat, q: nat, results: Option<seq<Option<Hook>>>, taken: Event)
    requires Run(states) && i < n && n + 1 < |states|
    requires LeftStep(states[i], Act(SendReturn(q, results)), states[i + 1])
    requires forall x | i < x <= n :: Sum(states[x].toRight, Rets(q)) > 0 && HasRef(states[x].right, q)
    requires states[n].toRight != [] && IsReturn(states[n].toRight[0], q)
    requires taken.Receive? && LeftStep(Mirror(states[n]), taken, Mirror(states[n + 1]))
    ensures HasRef(states[n + 1].right, q) && !Awaiting(states[n + 1].right, q)
    ensures var reply := states[n + 1].right.questions[q].value.reply;
      match results
      case None => reply == Rejected
      case Some(caps) => reply.Replied? && ArriveAll(states[i + 1], states[n], caps, reply.results)
  {
    hide Run, LocalOk, Do, Arrives, ArriveAll, NamesAll, ReceivedAll, ReceiveCaps;
    var m := Do(states[i].left, SendReturn(q, results)).1;
    ReturnSays(states[i].left, q, results);
    forall x | i < x <= n ensures UnderWay(states[x], m) {
      forall y | i < y <= x ensures 0 < Sum(states[y].toRight, Rets(q)) <= 1 { OnlyOne(states, y, q); }
      StaysUnderWay(states, i + 1, x, m, Rets(q));
    }
    OnlyOne(states, n, q);
    OnlyOneIsNext(states[n].toRight, m, Rets(q));
    SumHas(states[n].toRight, m, Cancels(q));
    if m.ret.Results? {
      CapsArrive(states, i + 1, n, m, results.value);
      ReceiveCapsOk(Settle(states[n].right, q, m.ret), m.ret.caps);
    }
  }

  /** A call that is made on an import arrives at the capability that the import was made from: the one that was
      described under that id, as long as somebody has counted on it ever since. */
  lemma CallReachesOrigin(states: seq<System>, i: nat, n: nat, e: nat, ptr: nat, taken: Event)
    requires Run(states) && i <= n && n + 1 < |states|
    requires Hosts(states[i].right, e, ptr) && forall x | i <= x <= n :: Referenced(states[x], e)
    requires states[n].toRight != [] && states[n].toRight[0].Call? && states[n].toRight[0].target == ImportedCap(e)
    requires taken.Receive? && LeftStep(Mirror(states[n]), taken, Mirror(states[n + 1]))
    ensures Kept(states[i].right, states[n].right, e)
    ensures var q := states[n].toRight[0].question;
      && q in states[n + 1].right.running
      && states[n + 1].right.running[q].callee == Client(states[n].right.exports[e].value.hook)
      && (!states[i].right.exports[e].value.resolving ==> Hosts(states[n].right, e, ptr))
  {
    hide Run, LocalOk, ReceiveCaps, ReceivedAll, Referenced;
    ReferencedIsKept(states, i, n, e);
  }
}
