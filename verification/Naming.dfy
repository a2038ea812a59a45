/** What one vat's messages say, and what the messages that it takes in come to: the capabilities that it is given
    are named in order, each so that the receiver can tell which it is; a call that comes in is put to work; and a
    promise that turns out to lead here is embargoed. */
module Naming {
  import opened Options
  import opened IdTable
  import opened Rpc
  import opened PeerView
  import opened VatSteps

  // ------------------------------------------------------------ descriptors

  /** Export `e` is the capability with that address. */
  predicate Hosts(v: Vat, e: nat, ptr: nat) {
    Has(v.exports, e) && IsLocal(v.exports[e].value.hook) && v.exports[e].value.hook.ptr == ptr
  }

  /** What a descriptor says, in the tables of the vat that wrote it. */
  predicate Names(v: Vat, desc: Desc, cap: Option<Hook>) {
    match cap
    case None => desc == NoCap
    case Some(Imported(i)) => desc == ReceiverHosted(i)
    case Some(Pipelined(q)) => desc == ReceiverAnswer(q)
    case Some(hook) => (desc.SenderHosted? || desc.SenderPromise?) && Hosts(v, desc.id, hook.ptr)
  }

  predicate NamesAll(v: Vat, descs: seq<Desc>, caps: seq<Option<Hook>>) {
    |descs| == |caps| && forall i | 0 <= i < |caps| :: Names(v, descs[i], caps[i])
  }

  lemma WriteNames(v: Vat, hook: Hook)
    requires LocalOk(v)
    ensures var w := WriteDescriptor(v, hook); Names(w.vat, w.desc, Some(hook))
  {
    hide NextId, QuestionsOk, AnswersOk, ImportsOk, RunningOk, ExportsOk;
  }

  /** Writing more leaves what has been written as it was. */
  lemma WriteKeepsNames(v: Vat, hook: Hook, desc: Desc, cap: Option<Hook>)
    requires LocalOk(v) && Names(v, desc, cap)
    ensures Names(WriteDescriptor(v, hook).vat, desc, cap)
  {
    hide NextId, QuestionsOk, AnswersOk, ImportsOk, RunningOk, ExportsOk;
  }

  /** The reverse map is used, and kept: a capability that it lists is described under the id listed and gets no
      export of its own; one that it does not list gets a free id, and is listed from then on. What is announced as
      a promise is one, and is going to be resolved. */
  lemma WriteDedups(v: Vat, hook: Hook)
    requires LocalOk(v) && IsLocal(hook)
    ensures var w := WriteDescriptor(v, hook);
      && (w.desc.SenderHosted? || w.desc.SenderPromise?)
      && hook.ptr in w.vat.byCap && w.vat.byCap[hook.ptr] == w.desc.id
      && (forall ptr | ptr != hook.ptr :: ptr in w.vat.byCap <==> ptr in v.byCap)
      && if hook.ptr in v.byCap then
           w.desc == SenderHosted(v.byCap[hook.ptr]) && forall e: nat :: Has(w.vat.exports, e) <==> Has(v.exports, e)
         else
           && !Has(v.exports, w.desc.id) && (w.desc.SenderPromise? <==> hook.LocalPromise?)
           && w.vat.exports[w.desc.id].value.hook == hook
           && (w.desc.SenderPromise? <==> Enabled(w.vat, ResolveExport(w.desc.id, None)))
  {
    hide NextId, QuestionsOk, AnswersOk, ImportsOk, RunningOk, ExportsOk;
  }

  /** Described again, a capability goes out under the same id. */
  lemma WriteTwice(v: Vat, hook: Hook)
    requires LocalOk(v) && IsLocal(hook)
    ensures var w := WriteDescriptor(v, hook); LocalOk(w.vat)
    ensures var w := WriteDescriptor(v, hook); WriteDescriptor(w.vat, hook).desc == SenderHosted(w.desc.id)
  {
    WriteDescriptorOk(v, hook);
    WriteDedups(v, hook);
    hide LocalOk, WriteDescriptor;
    WriteDedups(WriteDescriptor(v, hook).vat, hook);
  }

  /** The ids of the exports that a table carries, in order. */
  function SenderIds(descs: seq<Desc>): seq<nat> {
    if descs == [] then []
    else
      var last := descs[|descs| - 1];
      SenderIds(descs[..|descs| - 1]) + (if last.SenderHosted? || last.SenderPromise? then [last.id] else [])
  }

  /** A capability table says of each place what was put there, and the list of exports is that of the table. */
  lemma {:induction false} WriteDescriptorsName(v: Vat, caps: seq<Option<Hook>>)
    requires LocalOk(v)
    ensures var w := WriteDescriptors(v, caps); NamesAll(w.vat, w.descs, caps) && w.entries == SenderIds(w.descs)
  {
    hide LocalOk, WriteDescriptor, NamesAll, SenderIds;
    if caps == [] {
      NothingNamed(v);
    } else {
      var n := |caps| - 1;
      WriteDescriptorsName(v, caps[..n]);
      var init := WriteDescriptors(v, caps[..n]);
      assert caps == caps[..n] + [caps[n]];
      match caps[n] {
        case None =>
          IdsSnoc(init.descs, NoCap);
          NamesNothing(init.vat);
          NamesSnoc(init.vat, init.descs, caps[..n], NoCap, None);
        case Some(hook) =>
          var last := WriteDescriptor(init.vat, hook);
          EntryIsId(init.vat, hook);
          IdsSnoc(init.descs, last.desc);
          WriteNames(init.vat, hook);
          WriteKeepsAll(init.vat, hook, init.descs, caps[..n]);
          NamesSnoc(last.vat, init.descs, caps[..n], last.desc, Some(hook));
      }
    }
  }

  lemma NothingNamed(v: Vat)
    ensures NamesAll(v, [], []) && SenderIds([]) == []
  {
  }

  lemma NamesSnoc(v: Vat, descs: seq<Desc>, caps: seq<Option<Hook>>, desc: Desc, cap: Option<Hook>)
    requires NamesAll(v, descs, caps) && Names(v, desc, cap)
    ensures NamesAll(v, descs + [desc], caps + [cap])
  {
    hide Names;
  }

  lemma WriteKeepsAll(v: Vat, hook: Hook, descs: seq<Desc>, caps: seq<Option<Hook>>)
    requires LocalOk(v) && NamesAll(v, descs, caps)
    ensures NamesAll(WriteDescriptor(v, hook).vat, descs, caps)
  {
    hide LocalOk, WriteDescriptor, Names;
    forall i | 0 <= i < |caps| ensures Names(WriteDescriptor(v, hook).vat, descs[i], caps[i]) {
      WriteKeepsNames(v, hook, descs[i], caps[i]);
    }
  }

  lemma IdsSnoc(descs: seq<Desc>, desc: Desc)
    ensures SenderIds(descs + [desc]) ==
      SenderIds(descs) + if desc.SenderHosted? || desc.SenderPromise? then [desc.id] else []
  {
    assert (descs + [desc])[..|descs|] == descs;
  }

  lemma NamesNothing(v: Vat)
    ensures Names(v, NoCap, None)
  {
  }

  lemma EntryIsId(v: Vat, hook: Hook)
    requires LocalOk(v)
    ensures var w := WriteDescriptor(v, hook);
      w.entry == if w.desc.SenderHosted? || w.desc.SenderPromise? then Some(w.desc.id) else None
  {
    hide LocalOk, NextId;
  }

  lemma NamesSame(v: Vat, w: Vat)
    requires w.exports == v.exports
    ensures forall desc: Desc, cap: Option<Hook> :: Names(v, desc, cap) == Names(w, desc, cap)
  {
  }

  // ---------------------------------------------------------- what is sent

  /** The client that is addressed by a target. */
  function Addressed(target: Target): Hook {
    match target
    case ImportedCap(i) => Imported(i)
    case PromisedAnswer(q) => Pipelined(q)
  }

  /** A call goes to the client it is made on, with the capabilities it is given, under an id that was free and now
      waits. */
  lemma CallSays(v: Vat, target: Hook, caps: seq<Option<Hook>>)
    requires LocalOk(v) && Enabled(v, SendCall(target, caps))
    ensures var (w, m) := Do(v, SendCall(target, caps));
      && m.Call? && Addressed(m.target) == target && NamesAll(w, m.caps, caps)
      && !Has(v.questions, m.question)
      && Has(w.questions, m.question) && w.questions[m.question].value == Question(true, true, Waiting)
  {
    hide LocalOk, WriteDescriptors, NextId, Names;
    WriteDescriptorsName(v, caps);
    NamesSame(WriteDescriptors(v, caps).vat, Do(v, SendCall(target, caps)).0);
  }

  /** So does a bootstrap question. */
  lemma BootstrapAsks(v: Vat)
    requires LocalOk(v)
    ensures var (w, m) := Do(v, AskBootstrap);
      && m.Bootstrap? && !Has(v.questions, m.question)
      && Has(w.questions, m.question) && w.questions[m.question].value == Question(true, true, Waiting)
  {
    hide LocalOk, NextId;
  }

  /** The vat has this capability: its own, an import in its table, or a question that it has not dropped. */
  predicate Holds(v: Vat, hook: Hook) {
    match hook
    case Imported(i) => i in v.imports
    case Pipelined(q) => Has(v.questions, q) && v.questions[q].value.hasRef
    case _ => true
  }

  /** Whatever a vat holds it can use: it can call an import or a pipelined answer with any capabilities it has, drop
      either, and answer a loopback; and it can return any capabilities it has. */
  lemma HeldCanBeUsed(v: Vat, hook: Hook, caps: seq<Option<Hook>>)
    requires Holds(v, hook) && (hook.Imported? || hook.Pipelined?)
    requires forall i | 0 <= i < |caps| && caps[i].Some? :: Holds(v, caps[i].value)
    ensures Enabled(v, SendCall(hook, caps))
    ensures hook.Imported? ==> Enabled(v, DropImport(hook.id))
    ensures hook.Pipelined? ==> Enabled(v, DropQuestionRef(hook.question))
    ensures forall k: nat | k < |v.loopbacks| && v.loopbacks[k].hook == hook :: Enabled(v, RunLoopback(k))
    ensures forall q: nat | q in v.running :: Enabled(v, SendReturn(q, Some(caps))) && Enabled(v, SendReturn(q, None))
    ensures forall e: nat | Has(v.exports, e) && v.exports[e].value.resolving ::
      && Enabled(v, ResolveExport(e, Some(hook))) && Enabled(v, ResolveExport(e, None))
      && forall ptr: nat :: Enabled(v, ResolveExport(e, Some(Local(ptr))))
  {
  }

  /** A pipelined client can be embargoed exactly if the reply has come and the capability there is on this side. */
  lemma EmbargoAnswerIff(v: Vat, q: nat, i: nat)
    ensures Enabled(v, EmbargoAnswer(q, i)) <==>
      && HasRef(v, q) && v.questions[q].value.reply.Replied? && i < |v.questions[q].value.reply.results|
      && match v.questions[q].value.reply.results[i]
         case Client(hook) => hook.Local? || hook.LocalPromise?
         case _ => true
  {
  }

  /** A return carries what the call came to, unless the call was canceled. */
  lemma ReturnSays(v: Vat, q: nat, results: Option<seq<Option<Hook>>>)
    requires LocalOk(v) && Enabled(v, SendReturn(q, results))
    ensures q in v.answers
    ensures var (w, m) := Do(v, SendReturn(q, results));
      && m.Return? && m.answer == q && q !in w.running
      && (m.ret.Canceled? <==> v.answers[q].finished)
      && (m.ret.Exception? <==> !v.answers[q].finished && results.None?)
      && (m.ret.Results? ==> results.Some? && NamesAll(w, m.ret.caps, results.value))
  {
    assert LocalOk(EndCall(v, q)) && q in v.answers;
    hide LocalOk, WriteDescriptors, Names;
    var x := EndCall(v, q);
    if results.Some? && !v.answers[q].finished {
      WriteDescriptorsName(x, results.value);
      NamesSame(WriteDescriptors(x, results.value).vat, Do(v, SendReturn(q, results)).0);
      SameRunning(x, results.value);
    }
  }

  lemma SameRunning(v: Vat, caps: seq<Option<Hook>>)
    requires LocalOk(v)
    ensures WriteDescriptors(v, caps).vat.running == v.running
  {
  }

  /** A bootstrap question is answered with the bootstrap capability. */
  lemma BootstrapSays(v: Vat, q: nat)
    requires LocalOk(v) && q !in v.answers
    ensures var r := HandleBootstrap(v, q);
      && r.Ok? && |r.out| == 1 && r.out[0].Return? && r.out[0].answer == q
      && r.out[0].ret.Results? && NamesAll(r.vat, r.out[0].ret.caps, [Some(v.boot)])
      && q in r.vat.answers && r.vat.answers[q].returnSent
  {
    hide LocalOk, WriteDescriptors, Names, HandleBootstrap;
    BootstrapAnswered(v, q);
    WriteDescriptorsName(v, [Some(v.boot)]);
    NamesSame(WriteDescriptors(v, [Some(v.boot)]).vat, HandleBootstrap(v, q).vat);
  }

  /** A promise is resolved once, for good: its export now is what it has resolved to, and the message says so. */
  lemma ResolveSays(v: Vat, e: nat, resolution: Option<Hook>)
    requires LocalOk(v) && Enabled(v, ResolveExport(e, resolution))
    ensures var (w, m) := Do(v, ResolveExport(e, resolution));
      && m.Resolve? && m.promiseId == e && Has(w.exports, e) && !w.exports[e].value.resolving
      && (resolution.None? ==> m.resolution.ToException? && w.exports[e].value.hook == v.exports[e].value.hook)
      && (resolution.Some? ==>
          && m.resolution.ToCap? && Names(w, m.resolution.desc, resolution)
          && w.exports[e].value.hook == resolution.value)
  {
    if resolution.Some? {
      var hook := resolution.value;
      RepointOk(v, e, hook);
      var x := Repoint(v, e, hook);
      assert x.exports[e].value == v.exports[e].value.(hook := hook, resolving := false);
      WriteNames(x, hook);
      WriteKeepsExport(x, hook, e);
      hide Repoint, WriteDescriptor, LocalOk, Names;
    }
  }

  lemma WriteKeepsExport(v: Vat, hook: Hook, e: nat)
    requires LocalOk(v) && Has(v.exports, e)
    ensures var w := WriteDescriptor(v, hook).vat;
      && Has(w.exports, e) && w.exports[e].value.hook == v.exports[e].value.hook
      && w.exports[e].value.resolving == v.exports[e].value.resolving
  {
    hide NextId, QuestionsOk, AnswersOk, ImportsOk, RunningOk, ExportsOk;
  }

  /** A scheduled loopback goes back to where its target leads, with the id it came with, and is done. */
  lemma EchoSays(v: Vat, k: nat)
    requires LocalOk(v) && Enabled(v, RunLoopback(k))
    ensures var (w, m) := Do(v, RunLoopback(k));
      && m.Disembargo? && Addressed(m.target) == v.loopbacks[k].hook
      && m.context == ReceiverLoopback(v.loopbacks[k].embargo)
      && |w.loopbacks| == |v.loopbacks| - 1
  {
  }

  /** A `Return` to a question that is held ends the wait with the reply it carries, or with a complaint if it says
      `Canceled`; to one that is not held, it frees the id. */
  lemma ReturnSettles(v: Vat, q: nat, ret: Ret)
    requires LocalOk(v) && Has(v.questions, q)
    ensures var r := HandleReturn(v, q, ret);
      && r.Ok?
      && (!HasRef(v, q) ==> !Has(r.vat.questions, q) && r.vat.imports == v.imports && r.out == [])
      && (HasRef(v, q) ==>
          && HasRef(r.vat, q) && !Awaiting(r.vat, q)
          && (r.out == if ret.Canceled? then [Unimplemented] else [])
          && var reply := r.vat.questions[q].value.reply;
             match ret
             case Results(caps) => reply == Replied(ReceivedAll(v, caps))
             case Exception => reply == Rejected
             case Canceled => reply == v.questions[q].value.reply)
      && (forall k: nat | k != q :: Has(r.vat.questions, k) <==> Has(v.questions, k))
  {
    hide LocalOk, ReceiveCaps, ReceivedAll;
    if ret.Results? { ReceiveCapsOk(Settle(v, q, ret), ret.caps); }
  }

  /** A client that fails every call stands for exactly what is not there, or not any more. */
  lemma BrokenIff(v: Vat, target: Target)
    ensures Lookup(v, target) == Broken <==> !Reaches(v, target)
    ensures Lookup(v, target) != Nothing
  {
  }

  // ------------------------------------------------------------- embargoes

  /** An embargo has been set up under an id that was free, and its `Disembargo` is on its way to `target`. */
  ghost predicate Embargoes(v: Vat, w: Vat, out: seq<Msg>, target: Target) {
    && |out| == 1 && out[0].Disembargo? && out[0].target == target && out[0].context.SenderLoopback?
    && !Has(v.embargoes, out[0].context.embargo) && Has(w.embargoes, out[0].context.embargo)
    && forall id: nat | id != out[0].context.embargo :: Has(w.embargoes, id) <==> Has(v.embargoes, id)
  }

  lemma StartsEmbargo(v: Vat, target: Target)
    ensures var (w, m) := StartEmbargo(v, target); Embargoes(v, w, [m], target)
  {
    hide NextId;
  }

  lemma AnswerEmbargoes(v: Vat, q: nat, i: nat)
    requires LocalOk(v) && Enabled(v, EmbargoAnswer(q, i))
    ensures var (w, m) := Do(v, EmbargoAnswer(q, i)); Embargoes(v, w, [m], PromisedAnswer(q))
  {
    hide LocalOk, StartEmbargo, Embargoes;
    StartsEmbargo(v, PromisedAnswer(q));
  }

  /** What the peer says a promise has resolved to is on this side of the connection: one of our exports, unless that
      has meanwhile become a capability of the peer's, or the result of one of our answers. */
  predicate LeadsHere(v: Vat, resolution: Resolution) {
    match resolution
    case ToCap(ReceiverHosted(e)) => !Has(v.exports, e) || IsLocal(v.exports[e].value.hook)
    case ToCap(ReceiverAnswer(_)) => true
    case _ => false
  }

  /** A `Resolve` that is accepted sends something if and only if it resolves a promise that has been called to
      something on this side. It then sets up an embargo on that promise; otherwise no embargo changes. In
      either case the promise is none any more. */
  lemma ResolveEmbargoes(v: Vat, p: nat, resolution: Resolution, called: bool)
    requires LocalOk(v) && HandleResolve(v, p, resolution, called).Ok?
    ensures var r := HandleResolve(v, p, resolution, called);
      && (r.out != [] <==> called && p in v.imports && v.imports[p].promise && LeadsHere(v, resolution))
      && (r.out != [] ==> Embargoes(v, r.vat, r.out, ImportedCap(p)))
      && (r.out == [] ==> r.vat.embargoes == v.embargoes)
      && (p in r.vat.imports ==> !r.vat.imports[p].promise)
  {
    hide LocalOk, Embargoes, StartEmbargo;
    var w := if resolution.ToCap? then ReceiveCap(v, resolution.desc) else v;
    if p in w.imports {
      var x := w.(imports := w.imports[p := w.imports[p].(promise := false)]);
      StartsEmbargo(x, ImportedCap(p));
      EmbargoesFrom(v, x, StartEmbargo(x, ImportedCap(p)).0, [StartEmbargo(x, ImportedCap(p)).1], ImportedCap(p));
      SameButEmbargoes(x, ImportedCap(p));
    }
  }

  lemma EmbargoesFrom(v: Vat, x: Vat, w: Vat, out: seq<Msg>, target: Target)
    requires x.embargoes == v.embargoes && Embargoes(x, w, out, target)
    ensures Embargoes(v, w, out, target)
  {
  }

  lemma SameButEmbargoes(v: Vat, target: Target)
    ensures StartEmbargo(v, target).0.imports == v.imports
  {
  }

  /** A `senderLoopback` that is accepted schedules one answer, last, under its id, to something that leads over
      the connection; a `receiverLoopback` frees its id and no other. */
  lemma DisembargoDoes(v: Vat, target: Target, context: Context, leads: Hook)
    requires LocalOk(v) && HandleDisembargo(v, target, context, leads).Ok?
    ensures var r := HandleDisembargo(v, target, context, leads);
      && r.out == []
      && (context.SenderLoopback? ==>
          && r.vat.embargoes == v.embargoes && |r.vat.loopbacks| == |v.loopbacks| + 1
          && r.vat.loopbacks[..|v.loopbacks|] == v.loopbacks
          && var task := r.vat.loopbacks[|v.loopbacks|];
             task.embargo == context.embargo && task.hook == leads && !IsLocal(leads))
      && (context.ReceiverLoopback? ==>
          && r.vat.loopbacks == v.loopbacks
          && forall id: nat :: Has(r.vat.embargoes, id) <==> Has(v.embargoes, id) && id != context.embargo)
  {
  }

  // ------------------------------------------------------------ what is refused

  /** There is no such export or answer; an answer that is there but closed is not missing. */
  predicate Missing(v: Vat, target: Target) {
    match target
    case ImportedCap(e) => e >= |v.exports| || v.exports[e].None?
    case PromisedAnswer(q) => q !in v.answers
  }

  /** The messages that a vat refuses, whoever sent them: a question whose id is in use, a target that is not there, a
      `Return` to no question, a `Finish` of no answer or one that would release more than there is, a release of
      more than there is, a `Resolve` to nothing or of an import that is no promise, and a `Disembargo` to what
      does not lead back or of an unknown id. Everything else is taken in. */
  ghost predicate Refused(v: Vat, m: Msg, leads: Hook) {
    match m
    case Bootstrap(q) => q in v.answers
    case Call(q, target, _) => Missing(v, target) || q in v.answers
    case Return(q, _) => !Has(v.questions, q)
    case Finish(q, release) =>
      q !in v.answers || (release && exists e: nat :: Occurs(v.answers[q].resultExports, e) > RefCount(v, e))
    case Resolve(p, resolution) =>
      || resolution == ToCap(NoCap)
      || (if p in v.imports then !v.imports[p].promise else resolution == ToCap(SenderHosted(p)))
    case Release(e, count) => !Has(v.exports, e) || count > RefCount(v, e)
    case Disembargo(target, SenderLoopback(_)) =>
      || Missing(v, target) || IsLocal(leads)
      || (target.ImportedCap? && v.exports[target.id].value.hook.Local?)
    case Disembargo(_, ReceiverLoopback(id)) => !Has(v.embargoes, id)
    case Unimplemented => true
  }

  lemma RefusedIff(v: Vat, m: Msg, called: bool, leads: Hook)
    requires LocalOk(v)
    ensures Handle(v, m, called, leads).Err? <==> Refused(v, m, leads)
  {
    match m
    case Finish(q, release) => FinishRefusedIff(v, q, release);
    case Call(q, target, caps) => ReceiveCapsOk(v, caps);
    case _ =>
  }

  /** An error tells what is wrong with the message, the first thing that is. */
  ghost predicate Tells(v: Vat, m: Msg, leads: Hook, e: Error) {
    match e
    case QuestionInUse => (m.Bootstrap? || (m.Call? && !Missing(v, m.target))) && m.question in v.answers
    case BadTarget => (m.Call? || (m.Disembargo? && m.context.SenderLoopback?)) && Missing(v, m.target)
    case BadReturn => m.Return?
    case BadFinish => m.Finish? && m.question !in v.answers
    case BadRelease => m.Release? || (m.Finish? && m.question in v.answers)
    case BadEmbargo => m.Disembargo? && m.context.ReceiverLoopback?
    case ResolveWithoutCap => m.Resolve? && m.resolution == ToCap(NoCap)
    case ResolveOfNonPromise => m.Resolve? && m.resolution != ToCap(NoCap)
    case NotLoopback => m.Disembargo? && m.context.SenderLoopback? && !Missing(v, m.target)
    case PeerUnimplemented => m.Unimplemented?
    case LoopbackRedirected => false
  }

  lemma ErrorTells(v: Vat, m: Msg, called: bool, leads: Hook)
    requires LocalOk(v) && Handle(v, m, called, leads).Err?
    ensures Tells(v, m, leads, Handle(v, m, called, leads).error)
  {
    hide LocalOk, ReceiveCaps, ReleaseExports, Received, ReceivedAll, Respond;
    if m.Call? { ReceiveCapsOk(v, m.caps); }
  }

  lemma FinishRefusedIff(v: Vat, q: nat, release: bool)
    requires LocalOk(v)
    ensures HandleFinish(v, q, release).Err? <==> Refused(v, Finish(q, release), Local(0))
  {
    if q in v.answers {
      var w := CloseAnswer(v, q, release);
      assert LocalOk(w);
      hide LocalOk, ReleaseExports;
      SameExports(v, w);
      var ids := if release then v.answers[q].resultExports else [];
      ReleaseExportsOk(w, ids);
      assert forall e: nat :: Occurs([], e) == 0;
    }
  }
}
