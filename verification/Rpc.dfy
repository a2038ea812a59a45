/** One vat's side of a connection, as in capnp-rpc/src/rpc.rs: the four tables of the RPC protocol, and what
    every message and every local event does to them. Everything here is a value; the class that
    updates the tables in place is in `Connection`. */
module Rpc {
  import opened Options
  import opened IdTable

  // ------------------------------------------------------------ messages

  /** A capability as a client hook of this vat. The first two are hosted here, and told apart by the address
      of their hook; the other two lead back over the connection. */
  datatype Hook =
    | Local(ptr: nat)
    | LocalPromise(ptr: nat)
    | Imported(id: nat)
    | Pipelined(question: nat)

  datatype Desc =
    | NoCap
    | SenderHosted(id: nat)
    | SenderPromise(id: nat)
    | ReceiverHosted(id: nat)
    | ReceiverAnswer(question: nat)

  datatype Target = ImportedCap(id: nat) | PromisedAnswer(question: nat)

  datatype Ret = Results(caps: seq<Desc>) | Exception | Canceled

  datatype Resolution = ToCap(desc: Desc) | ToException

  datatype Context = SenderLoopback(embargo: nat) | ReceiverLoopback(embargo: nat)

  datatype Msg =
    | Bootstrap(question: nat)
    | Call(question: nat, target: Target, caps: seq<Desc>)
    | Return(answer: nat, ret: Ret)
    | Finish(question: nat, releaseResultCaps: bool)
    | Resolve(promiseId: nat, resolution: Resolution)
    | Release(id: nat, count: nat)
    | Disembargo(target: Target, context: Context)
    | Unimplemented

  // -------------------------------------------------------------- tables

  /** `resolving`: an unresolved promise, whose `Resolve` is still to be sent. */
  datatype Export = Export(refcount: nat, hook: Hook, resolving: bool)

  /** What a descriptor or a target is to its receiver: no capability, a client, a capability in the results of an
      answer, or a client that fails every call. */
  datatype Got = Nothing | Client(hook: Hook) | OfAnswer(answer: nat) | Broken

  /** What has become of a question, for whoever holds it. */
  datatype Reply = Waiting | Replied(results: seq<Got>) | Rejected

  /** `hasRef`: the local `QuestionRef` has not been dropped. */
  datatype Question = Question(awaiting: bool, hasRef: bool, reply: Reply)

  datatype Answer = Answer(returnSent: bool, pipeline: bool, finished: bool, resultExports: seq<nat>)

  /** `promise`: there is a promise client to resolve. */
  datatype Import = Import(refs: nat, promise: bool)

  datatype Embargo = Embargo

  /** A scheduled answer to a `senderLoopback`. */
  datatype Loopback = Loopback(embargo: nat, hook: Hook)

  /** A call that is being worked on: what was called, and with which capabilities. */
  datatype Work = Work(callee: Got, params: seq<Got>)

  /** `running`: the calls that are being worked on, under their answers, and will return or be canceled. */
  datatype Vat = Vat(
    boot: Hook,
    exports: Slots<Export>,
    questions: Slots<Question>,
    answers: map<nat, Answer>,
    running: map<nat, Work>,
    imports: map<nat, Import>,
    byCap: map<nat, nat>,
    embargoes: Slots<Embargo>,
    loopbacks: seq<Loopback>)

  datatype Error =
    | QuestionInUse | BadTarget | BadReturn | BadFinish | BadRelease | BadEmbargo
    | ResolveWithoutCap | ResolveOfNonPromise | NotLoopback | PeerUnimplemented | LoopbackRedirected

  /** What handling a message comes to: a new state and what is sent, or an error that ends the connection. */
  datatype Outcome = Ok(vat: Vat, out: seq<Msg>) | Err(error: Error)

  predicate IsLocal(hook: Hook) {
    hook.Local? || hook.LocalPromise?
  }

  // --------------------------------------------------- local consistency

  predicate HasRef(v: Vat, q: nat) {
    Has(v.questions, q) && v.questions[q].value.hasRef
  }

  predicate Awaiting(v: Vat, q: nat) {
    Has(v.questions, q) && v.questions[q].value.awaiting
  }

  function RefCount(v: Vat, e: nat): nat {
    if Has(v.exports, e) then v.exports[e].value.refcount else 0
  }

  function ImportRefs(v: Vat, e: nat): nat {
    if e in v.imports then v.imports[e].refs else 0
  }

  ghost predicate QuestionsOk(questions: Slots<Question>) {
    forall q: nat | Has(questions, q) :: questions[q].value.awaiting || questions[q].value.hasRef
  }

  ghost predicate AnswersOk(answers: map<nat, Answer>) {
    forall q | q in answers ::
      && answers[q].pipeline == !answers[q].finished
      && !(answers[q].returnSent && answers[q].finished)
      && (!answers[q].returnSent ==> answers[q].resultExports == [])
  }

  /** A call that is being worked on has its answer in the table, unreturned. */
  ghost predicate RunningOk(running: map<nat, Work>, answers: map<nat, Answer>) {
    forall q | q in running :: q in answers && !answers[q].returnSent
  }

  ghost predicate ExportsOk(exports: Slots<Export>) {
    forall e: nat | Has(exports, e) :: exports[e].value.refcount > 0
  }

  ghost predicate ImportsOk(imports: map<nat, Import>) {
    forall e | e in imports :: imports[e].refs > 0
  }

  /** Every entry of the reverse map points to a live export whose current hook has that address. */
  ghost predicate ByCapOk(byCap: map<nat, nat>, exports: Slots<Export>) {
    forall ptr | ptr in byCap ::
      && Has(exports, byCap[ptr])
      && IsLocal(exports[byCap[ptr]].value.hook) && exports[byCap[ptr]].value.hook.ptr == ptr
  }

  ghost predicate LocalOk(v: Vat) {
    && IsLocal(v.boot)
    && QuestionsOk(v.questions)
    && AnswersOk(v.answers)
    && RunningOk(v.running, v.answers)
    && ExportsOk(v.exports)
    && ImportsOk(v.imports)
    && ByCapOk(v.byCap, v.exports)
  }

  /** A capability that this vat can name: its own, a live import, or the answer to a question that is still
      referenced. Holding a client keeps the import or the question alive. */
  predicate Usable(v: Vat, hook: Hook) {
    match hook
    case Imported(i) => i in v.imports
    case Pipelined(q) => HasRef(v, q)
    case _ => true
  }

  predicate UsableCaps(v: Vat, caps: seq<Option<Hook>>) {
    forall i | 0 <= i < |caps| && caps[i].Some? :: Usable(v, caps[i].value)
  }

  /** How a hook that leads over the connection is addressed. */
  function TargetOf(hook: Hook): Target
    requires !IsLocal(hook)
  {
    if hook.Imported? then ImportedCap(hook.id) else PromisedAnswer(hook.question)
  }

  // ---------------------------------------------------- exporting, importing

  datatype Written = Written(vat: Vat, desc: Desc, entry: Option<nat>)

  /** Describes a capability to the peer. A local one is exported, or its export gains a reference. */
  function WriteDescriptor(v: Vat, hook: Hook): Written
    requires LocalOk(v)
  {
    match hook
    case Imported(i) => Written(v, ReceiverHosted(i), None)
    case Pipelined(q) => Written(v, ReceiverAnswer(q), None)
    case _ =>
      if hook.ptr in v.byCap then
        var id := v.byCap[hook.ptr];
        var exp := v.exports[id].value;
        Written(v.(exports := Update(v.exports, id, exp.(refcount := exp.refcount + 1))), SenderHosted(id), Some(id))
      else
        var id := NextId(v.exports);
        Written(v.(exports := Put(v.exports, Export(1, hook, hook.LocalPromise?)), byCap := v.byCap[hook.ptr := id]),
                if hook.LocalPromise? then SenderPromise(id) else SenderHosted(id), Some(id))
  }

  /** How many references to export `e` a descriptor carries: none or one. */
  function DescRefs(desc: Desc, e: nat): nat {
    if (desc.SenderHosted? || desc.SenderPromise?) && desc.id == e then 1 else 0
  }

  function CapRefs(descs: seq<Desc>, e: nat): nat {
    if descs == [] then 0 else CapRefs(descs[..|descs| - 1], e) + DescRefs(descs[|descs| - 1], e)
  }

  /** How often `e` occurs in a list of export ids. */
  function Occurs(ids: seq<nat>, e: nat): nat {
    if ids == [] then 0 else Occurs(ids[..|ids| - 1], e) + if ids[|ids| - 1] == e then 1 else 0
  }

  /** Only the export table and its reverse map may differ. */
  predicate SameButExports(v: Vat, w: Vat) {
    w == v.(exports := w.exports, byCap := w.byCap)
  }

  lemma ExportAgainOk(v: Vat, ptr: nat)
    requires ExportsOk(v.exports) && ByCapOk(v.byCap, v.exports) && ptr in v.byCap
    ensures var id := v.byCap[ptr];
      var exports := Update(v.exports, id, v.exports[id].value.(refcount := v.exports[id].value.refcount + 1));
      && ExportsOk(exports) && ByCapOk(v.byCap, exports)
      && forall e: nat :: RefCount(v.(exports := exports), e) == RefCount(v, e) + if e == id then 1 else 0
  {
  }

  lemma ExportNewOk(v: Vat, hook: Hook)
    requires ExportsOk(v.exports) && ByCapOk(v.byCap, v.exports) && IsLocal(hook)
    ensures var id := NextId(v.exports);
      var exports := Put(v.exports, Export(1, hook, hook.LocalPromise?));
      && ExportsOk(exports) && ByCapOk(v.byCap[hook.ptr := id], exports)
      && forall e: nat ::
           RefCount(v.(exports := exports, byCap := v.byCap[hook.ptr := id]), e) ==
           RefCount(v, e) + if e == id then 1 else 0
  {
    hide NextId;
  }

  /** Describing a capability adds exactly the reference that the descriptor carries, and keeps the tables
      consistent; in particular the reverse map is always good. */
  lemma WriteDescriptorOk(v: Vat, hook: Hook)
    requires LocalOk(v)
    ensures var w := WriteDescriptor(v, hook);
      && LocalOk(w.vat) && SameButExports(v, w.vat)
      && (forall e: nat :: RefCount(w.vat, e) == RefCount(v, e) + DescRefs(w.desc, e))
      && (forall e: nat :: DescRefs(w.desc, e) == if w.entry == Some(e) then 1 else 0)
      && (w.desc.SenderPromise? ==> RefCount(v, w.desc.id) == 0)
  {
    hide NextId;
    if IsLocal(hook) {
      if hook.ptr in v.byCap { ExportAgainOk(v, hook.ptr); } else { ExportNewOk(v, hook); }
      hide ExportsOk, ByCapOk, AnswersOk, QuestionsOk, ImportsOk;
    }
  }

  datatype WrittenAll = WrittenAll(vat: Vat, descs: seq<Desc>, entries: seq<nat>)

  function WriteDescriptors(v: Vat, caps: seq<Option<Hook>>): (w: WrittenAll)
    requires LocalOk(v)
    ensures LocalOk(w.vat) && SameButExports(v, w.vat)
  {
    if caps == [] then WrittenAll(v, [], [])
    else
      var init := WriteDescriptors(v, caps[..|caps| - 1]);
      match caps[|caps| - 1]
      case None => WrittenAll(init.vat, init.descs + [NoCap], init.entries)
      case Some(hook) =>
        WriteDescriptorOk(init.vat, hook);
        var last := WriteDescriptor(init.vat, hook);
        var entry := if last.entry.Some? then [last.entry.value] else [];
        WrittenAll(last.vat, init.descs + [last.desc], init.entries + entry)
  }

  /** Drops references to an export; at none left the export goes, and so does the entry for its hook's
      address. */
  function ReleaseExport(v: Vat, id: nat, count: nat): Option<Vat> {
    if !Has(v.exports, id) || count > v.exports[id].value.refcount then None
    else
      var exp := v.exports[id].value;
      if count < exp.refcount then Some(v.(exports := Update(v.exports, id, exp.(refcount := exp.refcount - count))))
      else Some(v.(exports := Without(v.exports, id), byCap := v.byCap - PtrOf(exp.hook)))
  }

  function PtrOf(hook: Hook): set<nat> {
    if IsLocal(hook) then {hook.ptr} else {}
  }

  function ReleaseExports(v: Vat, ids: seq<nat>): Option<Vat> {
    if ids == [] then Some(v)
    else
      var rest := ReleaseExports(v, ids[..|ids| - 1]);
      if rest.None? then None else ReleaseExport(rest.value, ids[|ids| - 1], 1)
  }

  /** Takes note of one more reference to an import. */
  function AddImport(v: Vat, id: nat, promise: bool): Vat {
    v.(imports := v.imports[id :=
      if id in v.imports then v.imports[id].(refs := v.imports[id].refs + 1) else Import(1, promise)])
  }

  function ReceiveCap(v: Vat, desc: Desc): Vat {
    match desc
    case SenderHosted(id) => AddImport(v, id, false)
    case SenderPromise(id) => AddImport(v, id, true)
    case _ => v
  }

  function ReceiveCaps(v: Vat, descs: seq<Desc>): Vat {
    if descs == [] then v else ReceiveCap(ReceiveCaps(v, descs[..|descs| - 1]), descs[|descs| - 1])
  }

  /** What a target stands for. An answer that has been closed has no results to offer. */
  function Lookup(v: Vat, target: Target): Got {
    match target
    case ImportedCap(e) => if Has(v.exports, e) then Client(v.exports[e].value.hook) else Broken
    case PromisedAnswer(q) => if q in v.answers && v.answers[q].pipeline then OfAnswer(q) else Broken
  }

  /** What a received descriptor stands for. */
  function Received(v: Vat, desc: Desc): Got {
    match desc
    case NoCap => Nothing
    case SenderHosted(id) => Client(Imported(id))
    case SenderPromise(id) => Client(Imported(id))
    case ReceiverHosted(e) => Lookup(v, ImportedCap(e))
    case ReceiverAnswer(q) => Lookup(v, PromisedAnswer(q))
  }

  function ReceivedAll(v: Vat, descs: seq<Desc>): (gots: seq<Got>)
    ensures |gots| == |descs|
  {
    seq(|descs|, i requires 0 <= i < |descs| => Received(v, descs[i]))
  }

  /** Calls to it pass over this connection. */
  predicate LeadsOver(got: Got) {
    got.Client? && !IsLocal(got.hook)
  }

  // ---------------------------------------------------------- local events

  /** What a vat does of its own accord. `results` is absent for an exception; `resolution` is absent for an
      error. */
  datatype Action =
    | AskBootstrap
    | SendCall(target: Hook, caps: seq<Option<Hook>>)
    | SendReturn(answer: nat, results: Option<seq<Option<Hook>>>)
    | DropQuestionRef(question: nat)
    | DropImport(id: nat)
    | ResolveExport(id: nat, resolution: Option<Hook>)
    | EmbargoAnswer(question: nat, index: nat)
    | RunLoopback(index: nat)

  /** A pipelined client has turned out to be something that does not lead over the connection. */
  predicate HasLocalResult(reply: Reply, i: nat) {
    reply.Replied? && i < |reply.results| && !LeadsOver(reply.results[i])
  }

  predicate Enabled(v: Vat, a: Action) {
    match a
    case AskBootstrap => true
    case SendCall(target, caps) => !IsLocal(target) && Usable(v, target) && UsableCaps(v, caps)
    case SendReturn(q, results) =>
      q in v.running && (results.Some? ==> UsableCaps(v, results.value))
    case DropQuestionRef(q) => HasRef(v, q)
    case DropImport(i) => i in v.imports
    case ResolveExport(e, resolution) =>
      && Has(v.exports, e) && v.exports[e].value.resolving
      && (resolution.Some? ==> Usable(v, resolution.value) && !resolution.value.LocalPromise?)
    case EmbargoAnswer(q, i) => HasRef(v, q) && HasLocalResult(v.questions[q].value.reply, i)
    case RunLoopback(k) => k < |v.loopbacks| && !IsLocal(v.loopbacks[k].hook) && Usable(v, v.loopbacks[k].hook)
  }

  /** Asks a question: its id is the least one free. */
  function AddQuestion(v: Vat): Vat {
    v.(questions := Put(v.questions, Question(true, true, Waiting)))
  }

  function EndCall(v: Vat, q: nat): Vat {
    v.(running := v.running - {q})
  }

  /** Sends the `Return` of an answer. After a `Finish` it says `Canceled`, carries nothing, and the answer
      goes; otherwise the answer remembers what it exported. */
  function Respond(v: Vat, q: nat, results: Option<seq<Option<Hook>>>): (r: (Vat, Msg))
    requires LocalOk(v) && q in v.answers && q !in v.running
  {
    var a := v.answers[q];
    if a.finished then (v.(answers := v.answers - {q}), Return(q, Canceled))
    else if results.None? then
      (v.(answers := v.answers[q := a.(returnSent := true, resultExports := [])]), Return(q, Exception))
    else
      var w := WriteDescriptors(v, results.value);
      (w.vat.(answers := w.vat.answers[q := a.(returnSent := true, resultExports := w.entries)]),
       Return(q, Results(w.descs)))
  }

  /** Drops the reference to a question: `Finish` is sent, asking for the results' capabilities to be
      released exactly when the `Return` has not come; the question goes if it has. */
  function ForgetQuestion(v: Vat, q: nat): (r: (Vat, Msg))
    requires HasRef(v, q)
  {
    var question := v.questions[q].value;
    (v.(questions :=
       if question.awaiting then Update(v.questions, q, question.(hasRef := false)) else Without(v.questions, q)),
     Finish(q, question.awaiting))
  }

  /** Points a resolved export at its resolution. */
  function Repoint(v: Vat, e: nat, hook: Hook): Vat
    requires Has(v.exports, e)
  {
    var exp := v.exports[e].value;
    v.(exports := Update(v.exports, e, exp.(hook := hook, resolving := false)), byCap := v.byCap - PtrOf(exp.hook))
  }

  lemma RepointOk(v: Vat, e: nat, hook: Hook)
    requires LocalOk(v) && Has(v.exports, e)
    ensures var w := Repoint(v, e, hook);
      LocalOk(w) && SameButExports(v, w) && forall k: nat :: RefCount(w, k) == RefCount(v, k)
  {
  }

  /** Sets up an embargo and sends the `Disembargo` that is to come back. */
  function StartEmbargo(v: Vat, target: Target): (Vat, Msg) {
    (v.(embargoes := Put(v.embargoes, Embargo)), Disembargo(target, SenderLoopback(NextId(v.embargoes))))
  }

  function Do(v: Vat, a: Action): (r: (Vat, Msg))
    requires LocalOk(v) && Enabled(v, a)
  {
    match a
    case AskBootstrap => (AddQuestion(v), Bootstrap(NextId(v.questions)))
    case SendCall(target, caps) =>
      var w := WriteDescriptors(v, caps);
      (AddQuestion(w.vat), Call(NextId(w.vat.questions), TargetOf(target), w.descs))
    case SendReturn(q, results) => Respond(EndCall(v, q), q, results)
    case DropQuestionRef(q) => ForgetQuestion(v, q)
    case DropImport(i) => (v.(imports := v.imports - {i}), Release(i, v.imports[i].refs))
    case ResolveExport(e, resolution) =>
      if resolution.None? then
        (v.(exports := Update(v.exports, e, v.exports[e].value.(resolving := false))), Resolve(e, ToException))
      else
        RepointOk(v, e, resolution.value);
        var w := WriteDescriptor(Repoint(v, e, resolution.value), resolution.value);
        (w.vat, Resolve(e, ToCap(w.desc)))
    case EmbargoAnswer(q, _) => StartEmbargo(v, PromisedAnswer(q))
    case RunLoopback(k) =>
      (DropLoopback(v, k), Disembargo(TargetOf(v.loopbacks[k].hook), ReceiverLoopback(v.loopbacks[k].embargo)))
  }

  function DropLoopback(v: Vat, k: nat): Vat
    requires k < |v.loopbacks|
  {
    v.(loopbacks := v.loopbacks[..k] + v.loopbacks[k + 1..])
  }

  /** What a scheduled loopback comes to. `redirected`: its target has meanwhile resolved to something that does not
      lead over the connection; that ends the connection. */
  function FinishLoopback(v: Vat, k: nat, redirected: bool): Outcome
    requires LocalOk(v) && Enabled(v, RunLoopback(k))
  {
    if redirected then Err(LoopbackRedirected) else Ok(Do(v, RunLoopback(k)).0, [Do(v, RunLoopback(k)).1])
  }

  // ------------------------------------------------------------- messages in

  /** Whether a message target can be found. */
  predicate Found(v: Vat, target: Target) {
    match target
    case ImportedCap(e) => Has(v.exports, e)
    case PromisedAnswer(q) => q in v.answers
  }

  function HandleBootstrap(v: Vat, q: nat): Outcome
    requires LocalOk(v)
  {
    if q in v.answers then Err(QuestionInUse)
    else
      var asked := AddAnswer(v, q);
      var r := Respond(asked, q, Some([Some(v.boot)]));
      Ok(r.0, [r.1])
  }

  function AddAnswer(v: Vat, q: nat): (w: Vat)
    requires LocalOk(v) && q !in v.answers
    ensures LocalOk(w)
  {
    v.(answers := v.answers[q := Answer(false, true, false, [])])
  }

  function StartCall(v: Vat, q: nat, work: Work): (w: Vat)
    requires LocalOk(v) && q !in v.answers
    ensures LocalOk(w)
  {
    AddAnswer(v, q).(running := v.running[q := work])
  }

  lemma {:induction false} ReceiveCapsOk(v: Vat, descs: seq<Desc>)
    ensures var w := ReceiveCaps(v, descs);
      && w == v.(imports := w.imports)
      && (LocalOk(v) ==> LocalOk(w))
      && (forall e: nat :: ImportRefs(w, e) == ImportRefs(v, e) + CapRefs(descs, e))
      && (forall e | e in v.imports :: e in w.imports)
  {
    if descs == [] {
    } else {
      ReceiveCapsOk(v, descs[..|descs| - 1]);
    }
  }

  function HandleCall(v: Vat, q: nat, target: Target, caps: seq<Desc>): Outcome
    requires LocalOk(v)
  {
    if !Found(v, target) then Err(BadTarget)
    else
      ReceiveCapsOk(v, caps);
      var w := ReceiveCaps(v, caps);
      if q in w.answers then Err(QuestionInUse)
      else Ok(StartCall(w, q, Work(Lookup(v, target), ReceivedAll(v, caps))), [])
  }

  /** A question that is still referenced gets its reply. */
  function Settle(v: Vat, q: nat, ret: Ret): Vat
    requires Has(v.questions, q)
  {
    var reply := match ret
      case Results(caps) => Replied(ReceivedAll(v, caps))
      case Exception => Rejected
      case Canceled => v.questions[q].value.reply;
    v.(questions := Update(v.questions, q, Question(false, true, reply)))
  }

  function HandleReturn(v: Vat, q: nat, ret: Ret): Outcome
    requires LocalOk(v)
  {
    if !Has(v.questions, q) then Err(BadReturn)
    else if !v.questions[q].value.hasRef then Ok(v.(questions := Without(v.questions, q)), [])
    else
      var w := Settle(v, q, ret);
      match ret
      case Results(caps) => Ok(ReceiveCaps(w, caps), [])
      case Exception => Ok(w, [])
      case Canceled => Ok(w, [Unimplemented])
  }

  /** An answer gets its `Finish`: it goes if it has returned, and else takes no more pipelined calls. */
  function CloseAnswer(v: Vat, q: nat, releaseResultCaps: bool): Vat
    requires q in v.answers
  {
    var a := v.answers[q];
    var left := if releaseResultCaps then [] else a.resultExports;
    if a.returnSent then v.(answers := v.answers - {q})
    else v.(answers := v.answers[q := a.(finished := true, pipeline := false, resultExports := left)])
  }

  function HandleFinish(v: Vat, q: nat, releaseResultCaps: bool): Outcome
    requires LocalOk(v)
  {
    if q !in v.answers then Err(BadFinish)
    else
      var r := ReleaseExports(
        CloseAnswer(v, q, releaseResultCaps), if releaseResultCaps then v.answers[q].resultExports else []);
      if r.None? then Err(BadRelease) else Ok(r.value, [])
  }

  /** `called`: the promise client is still there, and has been called or described. If it resolves to something that
      does not lead over the connection, there is an embargo. */
  function HandleResolve(v: Vat, p: nat, resolution: Resolution, called: bool): Outcome
    requires LocalOk(v)
  {
    if resolution == ToCap(NoCap) then Err(ResolveWithoutCap)
    else
      var w := if resolution.ToCap? then ReceiveCap(v, resolution.desc) else v;
      if p !in w.imports then Ok(w, [])
      else if !w.imports[p].promise then Err(ResolveOfNonPromise)
      else
        var x := w.(imports := w.imports[p := w.imports[p].(promise := false)]);
        if called && resolution.ToCap? && !LeadsOver(Received(v, resolution.desc)) then
          var r := StartEmbargo(x, ImportedCap(p));
          Ok(r.0, [r.1])
        else Ok(x, [])
  }

  function HandleRelease(v: Vat, id: nat, count: nat): Outcome
    requires LocalOk(v)
  {
    var r := ReleaseExport(v, id, count);
    if r.None? then Err(BadRelease) else Ok(r.value, [])
  }

  /** `leads`: what the target has resolved to, if it is a promise or an answer. */
  function HandleDisembargo(v: Vat, target: Target, context: Context, leads: Hook): Outcome
    requires LocalOk(v)
  {
    match context
    case SenderLoopback(id) =>
      if !Found(v, target) then Err(BadTarget)
      else
        var own := if target.ImportedCap? then v.exports[target.id].value.hook else leads;
        var hook := if own.Local? then own else leads;
        if IsLocal(hook) then Err(NotLoopback) else Ok(v.(loopbacks := v.loopbacks + [Loopback(id, hook)]), [])
    case ReceiverLoopback(id) =>
      if !Has(v.embargoes, id) then Err(BadEmbargo) else Ok(v.(embargoes := Without(v.embargoes, id)), [])
  }

  function Handle(v: Vat, m: Msg, called: bool, leads: Hook): Outcome
    requires LocalOk(v)
  {
    match m
    case Bootstrap(q) => HandleBootstrap(v, q)
    case Call(q, target, caps) => HandleCall(v, q, target, caps)
    case Return(q, ret) => HandleReturn(v, q, ret)
    case Finish(q, rel) => HandleFinish(v, q, rel)
    case Resolve(p, resolution) => HandleResolve(v, p, resolution, called)
    case Release(id, count) => HandleRelease(v, id, count)
    case Disembargo(target, context) => HandleDisembargo(v, target, context, leads)
    case Unimplemented => Err(PeerUnimplemented)
  }
}
