/** The connection state of capnp-rpc/src/rpc.rs as an object whose tables the handlers and the drops update in
    place. Each method is the corresponding step of module `Rpc` on the tables as values. */
module Connection {
  import opened Options
  import opened IdTable
  import opened Rpc
  import VatSteps
  import Naming

  class ConnectionState {
    const bootstrapCap: Hook
    const exports: ExportTable<Export>
    const questions: ExportTable<Question>
    const embargoes: ExportTable<Embargo>
    var answers: map<nat, Answer>
    // The calls that are being worked on, under their answers.
    var running: map<nat, Work>
    var imports: map<nat, Import>
    var exportsByCap: map<nat, nat>
    // Scheduled answers to `senderLoopback`.
    var tasks: seq<Loopback>
    // What has been handed to the connection, in order.
    var sent: seq<Msg>

    ghost predicate Shape()
      reads this, exports, questions, embargoes
    {
      exports.Valid() && questions.Valid() && embargoes.Valid()
    }

    function View(): Vat
      reads this, exports, questions, embargoes
    {
      Vat(bootstrapCap, exports.slots, questions.slots, answers, running, imports, exportsByCap, embargoes.slots, tasks)
    }

    ghost predicate Valid()
      reads this, exports, questions, embargoes
    {
      Shape() && LocalOk(View())
    }

    constructor (bootstrapCap: Hook)
      requires IsLocal(bootstrapCap)
      ensures Valid() && fresh(exports) && fresh(questions) && fresh(embargoes)
      ensures View() == Vat(bootstrapCap, [], [], map[], map[], map[], map[], [], []) && sent == []
    {
      this.bootstrapCap := bootstrapCap;
      exports := new ExportTable<Export>();
      questions := new ExportTable<Question>();
      embargoes := new ExportTable<Embargo>();
      answers, running, imports, exportsByCap, tasks, sent := map[], map[], map[], map[], [], [];
    }

    // ------------------------------------------------ exporting, importing

    method ReleaseExport(id: nat, refcount: nat) returns (ok: bool)
      requires Shape()
      modifies this`exportsByCap, exports
      ensures Shape()
      ensures var r := Rpc.ReleaseExport(old(View()), id, refcount);
        ok == r.Some? && View() == if ok then r.value else old(View())
    {
      ok := false;
      var found := exports.Find(id);
      if found.Some? && refcount <= found.value.refcount {
        ok := true;
        var exp := found.value.(refcount := found.value.refcount - refcount);
        if exp.refcount == 0 {
          exports.Erase(id);
          if IsLocal(exp.hook) { exportsByCap := exportsByCap - {exp.hook.ptr}; }
        } else {
          exports.Set(id, exp);
        }
      }
    }

    /** Releases one reference to each, in order, up to the first that fails: `done` of them. */
    method ReleaseExports(ids: seq<nat>) returns (ok: bool, done: nat)
      requires Shape()
      modifies this`exportsByCap, exports
      ensures Shape() && done <= |ids| && ok == (done == |ids|)
      ensures ok == Rpc.ReleaseExports(old(View()), ids).Some?
      ensures Rpc.ReleaseExports(old(View()), ids[..done]) == Some(View())
      ensures !ok ==> Rpc.ReleaseExport(View(), ids[done], 1).None?
    {
      hide Rpc.ReleaseExport;
      done := 0;
      while done < |ids|
        invariant Shape() && done <= |ids| && Rpc.ReleaseExports(old(View()), ids[..done]) == Some(View())
      {
        assert ids[..done + 1][..done] == ids[..done];
        ok := ReleaseExport(ids[done], 1);
        if !ok {
          Fails(old(View()), ids, done + 1);
          return;
        }
        done := done + 1;
      }
      assert ids[..|ids|] == ids;
      ok := true;
    }

    /** A capability that has been exported before gains a reference. */
    method ExportAgain(ptr: nat) returns (id: nat)
      requires Shape() && ByCapOk(exportsByCap, exports.slots) && ptr in exportsByCap
      modifies exports
      ensures Shape() && id == exportsByCap[ptr]
      ensures var exp := old(exports.slots)[id].value;
        exports.slots == Update(old(exports.slots), id, exp.(refcount := exp.refcount + 1))
    {
      id := exportsByCap[ptr];
      var found := exports.Find(id);
      exports.Set(id, found.value.(refcount := found.value.refcount + 1));
    }

    /** A capability is exported for the first time; for a promise a `Resolve` is to follow. */
    method ExportNew(hook: Hook) returns (id: nat)
      requires Shape() && IsLocal(hook)
      modifies this`exportsByCap, exports
      ensures Shape() && id == NextId(old(exports.slots))
      ensures exports.slots == Put(old(exports.slots), Export(1, hook, hook.LocalPromise?))
      ensures exportsByCap == old(exportsByCap)[hook.ptr := id]
    {
      hide NextId;
      id := exports.Push(Export(1, hook, false));
      exportsByCap := exportsByCap[hook.ptr := id];
      if hook.LocalPromise? { exports.Set(id, Export(1, hook, true)); }
    }

    /** Describes a capability, exporting it if it is hosted here. */
    method WriteDescriptor(hook: Hook) returns (desc: Desc, entry: Option<nat>)
      requires Valid()
      modifies this`exportsByCap, exports
      ensures Valid() && Written(View(), desc, entry) == Rpc.WriteDescriptor(old(View()), hook)
    {
      WriteDescriptorOk(View(), hook);
      hide QuestionsOk, AnswersOk, ExportsOk, ImportsOk, ByCapOk, NextId, Put, Update, RefCount, DescRefs;
      entry := None;
      match hook
      case Imported(i) => desc := ReceiverHosted(i);
      case Pipelined(q) => desc := ReceiverAnswer(q);
      case _ =>
        var id;
        if hook.ptr in exportsByCap {
          id := ExportAgain(hook.ptr);
          desc := SenderHosted(id);
        } else {
          id := ExportNew(hook);
          desc := if hook.LocalPromise? then SenderPromise(id) else SenderHosted(id);
        }
        entry := Some(id);
    }

    method WriteDescriptors(capTable: seq<Option<Hook>>) returns (descs: seq<Desc>, entries: seq<nat>)
      requires Valid()
      modifies this`exportsByCap, exports
      ensures Valid() && WrittenAll(View(), descs, entries) == Rpc.WriteDescriptors(old(View()), capTable)
      ensures Naming.NamesAll(View(), descs, capTable) && entries == Naming.SenderIds(descs)
    {
      hide LocalOk, Rpc.WriteDescriptor, Naming.NamesAll, Naming.SenderIds;
      Naming.WriteDescriptorsName(View(), capTable);
      descs, entries := [], [];
      for idx := 0 to |capTable|
        invariant Valid() && Rpc.WriteDescriptors(old(View()), capTable[..idx]) == WrittenAll(View(), descs, entries)
      {
        assert capTable[..idx + 1][..idx] == capTable[..idx];
        if capTable[idx].None? {
          descs := descs + [NoCap];
        } else {
          var desc, entry := WriteDescriptor(capTable[idx].value);
          descs := descs + [desc];
          if entry.Some? { entries := entries + [entry.value]; }
        }
      }
      assert capTable[..|capTable|] == capTable;
    }

    method Import(id: nat, promise: bool)
      modifies this`imports
      ensures View() == AddImport(old(View()), id, promise)
    {
      if id !in imports { imports := imports[id := Rpc.Import(0, promise)]; }
      imports := imports[id := imports[id].(refs := imports[id].refs + 1)];
    }

    method ReceiveCap(desc: Desc) returns (cap: Got)
      modifies this`imports
      ensures View() == Rpc.ReceiveCap(old(View()), desc) && cap == Received(old(View()), desc)
    {
      match desc
      case NoCap => cap := Nothing;
      case SenderHosted(id) =>
        Import(id, false);
        cap := Client(Imported(id));
      case SenderPromise(id) =>
        Import(id, true);
        cap := Client(Imported(id));
      case ReceiverHosted(id) =>
        var exp := exports.Find(id);
        cap := if exp.Some? then Client(exp.value.hook) else Broken;
      case ReceiverAnswer(id) => cap := if id in answers && answers[id].pipeline then OfAnswer(id) else Broken;
    }

    method ReceiveCaps(capTable: seq<Desc>) returns (result: seq<Got>)
      modifies this`imports
      ensures View() == Rpc.ReceiveCaps(old(View()), capTable) && result == ReceivedAll(old(View()), capTable)
    {
      hide Rpc.ReceiveCap, Received;
      result := [];
      for idx := 0 to |capTable|
        invariant View() == Rpc.ReceiveCaps(old(View()), capTable[..idx])
        invariant result == ReceivedAll(old(View()), capTable)[..idx]
      {
        assert capTable[..idx + 1][..idx] == capTable[..idx];
        ReceivesAlike(old(View()), View(), capTable[idx]);
        var cap := ReceiveCap(capTable[idx]);
        result := result + [cap];
      }
      assert capTable[..|capTable|] == capTable;
    }

    // ------------------------------------------------------ local events

    method SendBootstrap()
      requires Valid()
      modifies this`sent, questions
      ensures Valid()
      ensures var r := Do(old(View()), AskBootstrap); View() == r.0 && sent == old(sent) + [r.1]
    {
      hide NextId;
      var id := questions.Push(Question(true, true, Waiting));
      sent := sent + [Bootstrap(id)];
    }

    /** `send_internal`: the capability table is written before the question gets its id. */
    method SendInternal(target: Hook, capTable: seq<Option<Hook>>) returns (id: nat)
      requires Valid() && Enabled(View(), SendCall(target, capTable))
      modifies this`exportsByCap, this`sent, exports, questions
      ensures Valid()
      ensures var r := Do(old(View()), SendCall(target, capTable));
        View() == r.0 && sent == old(sent) + [r.1] && r.1.question == id
      // The call is addressed to its target, and its table names what it was given.
      ensures var m := sent[|old(sent)|];
        m.Call? && Naming.Addressed(m.target) == target && Naming.NamesAll(View(), m.caps, capTable)
    {
      hide NextId, Rpc.WriteDescriptors, Naming.NamesAll, Naming.Names;
      Naming.CallSays(View(), target, capTable);
      var descs, entries := WriteDescriptors(capTable);
      id := questions.Push(Question(true, true, Waiting));
      sent := sent + [Call(id, TargetOf(target), descs)];
    }

    method AnswerHasSentReturn(id: nat, resultExports: seq<nat>)
      requires id in answers
      modifies this`answers
      ensures answers == if old(answers)[id].finished then old(answers) - {id}
        else old(answers)[id := old(answers)[id].(returnSent := true, resultExports := resultExports)]
    {
      var a := answers[id].(returnSent := true);
      if a.finished {
        answers := answers - {id};
      } else {
        answers := answers[id := a.(resultExports := resultExports)];
      }
    }

    /** `from_results_inner`: a call is done, and its `Return` is sent. The answer is still in the table. */
    method SendReturn(id: nat, results: Option<seq<Option<Hook>>>)
      requires Valid() && id in running
      modifies this`exportsByCap, this`sent, this`answers, this`running, exports
      ensures Valid()
      ensures var r := Respond(EndCall(old(View()), id), id, results); View() == r.0 && sent == old(sent) + [r.1]
    {
      assert id in answers;
      running := running - {id};
      VatSteps.RespondOk(View(), id, results);
      hide LocalOk, Rpc.WriteDescriptors;
      if answers[id].finished {
        sent := sent + [Return(id, Canceled)];
        AnswerHasSentReturn(id, []);
      } else if results.None? {
        sent := sent + [Return(id, Exception)];
        AnswerHasSentReturn(id, []);
      } else {
        var descs, entries := WriteDescriptors(results.value);
        sent := sent + [Return(id, Results(descs))];
        AnswerHasSentReturn(id, entries);
      }
    }

    /** Drop of a `QuestionRef`: its slot is still there. */
    method DropQuestionRef(id: nat)
      requires Valid() && HasRef(View(), id)
      modifies this`sent, questions
      ensures Valid()
      ensures var r := ForgetQuestion(old(View()), id); View() == r.0 && sent == old(sent) + [r.1]
    {
      var found := questions.Find(id);
      var q := found.value;
      sent := sent + [Finish(id, q.awaiting)];
      if q.awaiting { questions.Set(id, q.(hasRef := false)); } else { questions.Erase(id); }
    }

    /** Drop of an `ImportClient`. */
    method DropImportClient(id: nat)
      requires Valid() && id in imports
      modifies this`imports, this`sent
      ensures Valid()
      ensures var r := Do(old(View()), DropImport(id)); View() == r.0 && sent == old(sent) + [r.1]
    {
      var refs := imports[id].refs;
      imports := imports - {id};
      if refs > 0 { sent := sent + [Release(id, refs)]; }
    }

    method ResolveExportedPromise(id: nat, resolution: Option<Hook>)
      requires Valid() && Enabled(View(), ResolveExport(id, resolution))
      modifies this`exportsByCap, this`sent, exports
      ensures Valid()
      ensures var r := Do(old(View()), ResolveExport(id, resolution)); View() == r.0 && sent == old(sent) + [r.1]
    {
      if resolution.None? {
        var found := exports.Find(id);
        exports.Set(id, found.value.(resolving := false));
        sent := sent + [Resolve(id, ToException)];
      } else {
        hide Repoint, Rpc.WriteDescriptor, QuestionsOk, AnswersOk, ExportsOk, ImportsOk, ByCapOk;
        PointExportAt(id, resolution.value);
        var desc, entry := WriteDescriptor(resolution.value);
        sent := sent + [Resolve(id, ToCap(desc))];
      }
    }

    /** The export table now points at the resolution of a promise. */
    method PointExportAt(id: nat, hook: Hook)
      requires Valid() && Has(exports.slots, id)
      modifies this`exportsByCap, exports
      ensures Valid() && View() == Repoint(old(View()), id, hook)
    {
      RepointOk(View(), id, hook);
      hide QuestionsOk, AnswersOk, ExportsOk, ImportsOk, ByCapOk;
      var found := exports.Find(id);
      var exp := found.value;
      if IsLocal(exp.hook) { exportsByCap := exportsByCap - {exp.hook.ptr}; }
      exports.Set(id, exp.(hook := hook, resolving := false));
    }

    /** The embargo part of `PromiseClient::resolve`. */
    method StartEmbargo(target: Target)
      requires Valid()
      modifies this`sent, embargoes
      ensures Valid()
      ensures var r := Rpc.StartEmbargo(old(View()), target); View() == r.0 && sent == old(sent) + [r.1]
    {
      hide NextId;
      var id := embargoes.Push(Embargo);
      sent := sent + [Disembargo(target, SenderLoopback(id))];
    }

    /** What `handle_disembargo` schedules. */
    method RunLoopback(k: nat, redirected: bool) returns (error: Option<Error>)
      requires Valid() && Enabled(View(), Action.RunLoopback(k))
      modifies this`tasks, this`sent
      ensures Did(FinishLoopback(old(View()), k, redirected), old(sent), error)
    {
      var task := tasks[k];
      tasks := tasks[..k] + tasks[k + 1..];
      if redirected { return Some(LoopbackRedirected); }
      error := None;
      sent := sent + [Disembargo(TargetOf(task.hook), ReceiverLoopback(task.embargo))];
    }

    /** Any of the local events. */
    method Perform(a: Action)
      requires Valid() && Enabled(View(), a)
      modifies this`imports, this`exportsByCap, this`answers, this`running, this`tasks, this`sent
      modifies exports, questions, embargoes
      ensures Valid()
      ensures var r := Do(old(View()), a); View() == r.0 && sent == old(sent) + [r.1]
    {
      hide LocalOk, Respond, ForgetQuestion, Rpc.WriteDescriptors, Rpc.WriteDescriptor, Repoint, NextId, Put;
      match a
      case AskBootstrap => SendBootstrap();
      case SendCall(target, caps) => var _ := SendInternal(target, caps);
      case SendReturn(q, results) => SendReturn(q, results);
      case DropQuestionRef(q) => DropQuestionRef(q);
      case DropImport(i) => DropImportClient(i);
      case ResolveExport(e, resolution) => ResolveExportedPromise(e, resolution);
      case EmbargoAnswer(q, _) => StartEmbargo(PromisedAnswer(q));
      case RunLoopback(k) => var _ := RunLoopback(k, false);
    }

    // ------------------------------------------------------- messages in

    /** What a handler has to do: the step on values, with an error reported as it would be. */
    ghost predicate Did(outcome: Outcome, before: seq<Msg>, error: Option<Error>)
      reads this, exports, questions, embargoes
    {
      match outcome
      case Ok(vat, out) => error == None && Valid() && View() == vat && sent == before + out
      case Err(e) => error == Some(e) && sent == before
    }

    method GetMessageTarget(target: Target) returns (found: Option<Got>)
      ensures found == if Found(View(), target) then Some(Lookup(View(), target)) else None
    {
      match target
      case ImportedCap(e) =>
        var exp := exports.Find(e);
        found := if exp.Some? then Some(Client(exp.value.hook)) else None;
      case PromisedAnswer(q) =>
        found := if q !in answers then None else if answers[q].pipeline then Some(OfAnswer(q)) else Some(Broken);
    }

    method HandleBootstrap(id: nat) returns (error: Option<Error>)
      requires Valid()
      modifies this`exportsByCap, this`sent, this`answers, exports
      ensures Did(Rpc.HandleBootstrap(old(View()), id), old(sent), error)
      // An id in use undoes the export.
      ensures error.Some? ==> SameButExports(old(View()), View()) && Valid()
      ensures error.Some? ==> forall e: nat :: RefCount(View(), e) == RefCount(old(View()), e)
    {
      hide LocalOk, Rpc.WriteDescriptors, Rpc.ReleaseExports, Respond;
      BootstrapUndone(View());
      if id !in answers { VatSteps.BootstrapAnswered(View(), id); }
      error := None;
      var descs, resultExports := WriteDescriptors([Some(bootstrapCap)]);
      if id in answers {
        var ok, done := ReleaseExports(resultExports);
        assert ok;
        assert resultExports[..done] == resultExports;
        return Some(QuestionInUse);
      }
      answers := answers[id := Answer(true, true, false, resultExports)];
      sent := sent + [Return(id, Results(descs))];
    }

    method HandleCall(id: nat, target: Target, capTable: seq<Desc>) returns (error: Option<Error>)
      requires Valid()
      modifies this`imports, this`answers, this`running
      ensures Did(Rpc.HandleCall(old(View()), id, target, capTable), old(sent), error)
      // A call that is accepted is worked on, and can return.
      ensures error.None? ==> id in running && Enabled(View(), Action.SendReturn(id, None))
      ensures error.None? ==>
        running[id] == Work(old(Lookup(View(), target)), old(ReceivedAll(View(), capTable)))
    {
      hide LocalOk, Rpc.ReceiveCaps, Found, Lookup, ReceivedAll;
      error := None;
      var capability := GetMessageTarget(target);
      if capability.None? { return Some(BadTarget); }
      ReceiveCapsOk(View(), capTable);
      var params := ReceiveCaps(capTable);
      if id in answers { return Some(QuestionInUse); }
      ghost var asked := StartCall(View(), id, Work(capability.value, params));
      answers := answers[id := Answer(false, true, false, [])];
      running := running[id := Work(capability.value, params)];
      assert View() == asked;
    }

    /** A `Return` to a question that is still referenced. */
    method Fulfill(id: nat, ret: Ret)
      requires Valid() && HasRef(View(), id)
      modifies this`imports, this`sent, questions
      ensures Did(Rpc.HandleReturn(old(View()), id, ret), old(sent), None)
    {
      hide Rpc.ReceiveCaps, AnswersOk, RunningOk, ExportsOk, ByCapOk, CapRefs, ImportRefs, ReceivedAll;
      SettleOk(View(), id, ret);
      hide LocalOk;
      var found := questions.Find(id);
      var question := found.value.(awaiting := false);
      match ret
      case Results(capTable) =>
        var caps := ReceiveCaps(capTable);
        questions.Set(id, question.(reply := Replied(caps)));
        ReceiveIgnoresQuestions(old(View()), questions.slots, capTable);
      case Exception =>
        questions.Set(id, question.(reply := Rejected));
      case Canceled =>
        questions.Set(id, question);
        sent := sent + [Unimplemented];
    }

    method HandleReturn(id: nat, ret: Ret) returns (error: Option<Error>)
      requires Valid()
      modifies this`imports, this`sent, questions
      ensures Did(Rpc.HandleReturn(old(View()), id, ret), old(sent), error)
    {
      hide Rpc.ReceiveCaps, AnswersOk, RunningOk, ExportsOk, ByCapOk, ImportsOk;
      error := None;
      var found := questions.Find(id);
      if found.None? { return Some(BadReturn); }
      if found.value.hasRef { Fulfill(id, ret); } else { questions.Erase(id); }
    }

    method HandleFinish(id: nat, releaseResultCaps: bool) returns (error: Option<Error>)
      requires Valid()
      modifies this`exportsByCap, this`answers, exports
      ensures Did(Rpc.HandleFinish(old(View()), id, releaseResultCaps), old(sent), error)
    {
      error := None;
      if id !in answers { return Some(BadFinish); }
      var answer := answers[id].(finished := true, pipeline := false);
      var exportsToRelease: seq<nat> := [];
      if releaseResultCaps {
        exportsToRelease := answer.resultExports;
        answer := answer.(resultExports := []);
      }
      if answer.returnSent {
        answers := answers - {id};
      } else {
        answers := answers[id := answer];
      }
      assert LocalOk(View());
      VatSteps.ReleaseExportsOk(View(), exportsToRelease);
      hide LocalOk, Rpc.ReleaseExports;
      var ok, done := ReleaseExports(exportsToRelease);
      assert ok ==> exportsToRelease[..done] == exportsToRelease;
      if !ok { error := Some(BadRelease); }
    }

    /** Resolves an import, if it is there. */
    method ResolveImport(promiseId: nat, resolution: Resolution, called: bool) returns (error: Option<Error>)
      requires Valid()
      modifies this`imports, this`sent, embargoes
      ensures Did(Rpc.HandleResolve(old(View()), promiseId, resolution, called), old(sent), error)
    {
      error := None;
      var cap := Nothing;
      if resolution.ToCap? {
        ReceiveCapsOk(View(), [resolution.desc]);
        assert Rpc.ReceiveCaps(View(), [resolution.desc]) == Rpc.ReceiveCap(View(), resolution.desc);
        cap := ReceiveCap(resolution.desc);
        if cap.Nothing? { return Some(ResolveWithoutCap); }
      }
      hide Rpc.ReceiveCap;
      if promiseId in imports {
        if !imports[promiseId].promise { return Some(ResolveOfNonPromise); }
        imports := imports[promiseId := imports[promiseId].(promise := false)];
        assert LocalOk(View());
        if called && resolution.ToCap? && !LeadsOver(cap) {
          StartEmbargo(ImportedCap(promiseId));
        }
      }
    }

    /** `called`: the promise client is still there, and has been called or described. */
    method HandleResolve(promiseId: nat, resolution: Resolution, called: bool) returns (error: Option<Error>)
      requires Valid()
      modifies this`imports, this`sent, embargoes
      ensures Did(Rpc.HandleResolve(old(View()), promiseId, resolution, called), old(sent), error)
      // There is an embargo exactly if a promise that was called turns out to be on this side.
      ensures error.None? ==>
        if
          && called && promiseId in old(imports) && old(imports)[promiseId].promise
          && Naming.LeadsHere(old(View()), resolution)
        then
          Naming.Embargoes(old(View()), View(), sent[|old(sent)|..], ImportedCap(promiseId))
        else
          sent == old(sent) && View().embargoes == old(View().embargoes)
    {
      if Rpc.HandleResolve(View(), promiseId, resolution, called).Ok? {
        Naming.ResolveEmbargoes(View(), promiseId, resolution, called);
      }
      hide LocalOk, Rpc.HandleResolve, Naming.Embargoes, Naming.LeadsHere;
      error := ResolveImport(promiseId, resolution, called);
    }

    method HandleRelease(id: nat, count: nat) returns (error: Option<Error>)
      requires Valid()
      modifies this`exportsByCap, exports
      ensures Did(Rpc.HandleRelease(old(View()), id, count), old(sent), error)
    {
      ReleaseExportKeeps(View(), id, count);
      hide LocalOk, Rpc.ReleaseExport;
      var ok := ReleaseExport(id, count);
      error := if ok then None else Some(BadRelease);
    }

    /** `leads`: what the target has resolved to, if it is a promise or an answer. */
    method HandleDisembargo(target: Target, context: Context, leads: Hook) returns (error: Option<Error>)
      requires Valid()
      modifies this`tasks, embargoes
      ensures Did(Rpc.HandleDisembargo(old(View()), target, context, leads), old(sent), error)
    {
      error := None;
      match context
      case SenderLoopback(id) =>
        var found := GetMessageTarget(target);
        if found.None? { return Some(BadTarget); }
        var hook := if found.value.Client? && found.value.hook.Local? then found.value.hook else leads;
        if IsLocal(hook) { return Some(NotLoopback); }
        tasks := tasks + [Loopback(id, hook)];
      case ReceiverLoopback(id) =>
        var embargo := embargoes.Find(id);
        if embargo.None? { return Some(BadEmbargo); }
        embargoes.Erase(id);
    }

    /** `handle_message`. */
    method HandleMessage(m: Msg, called: bool, leads: Hook) returns (error: Option<Error>)
      requires Valid()
      modifies this`imports, this`exportsByCap, this`answers, this`running, this`tasks, this`sent
      modifies exports, questions, embargoes
      ensures Did(Handle(old(View()), m, called, leads), old(sent), error)
    {
      hide LocalOk, Rpc.HandleBootstrap, Rpc.HandleCall, Rpc.HandleReturn, Rpc.HandleFinish;
      hide Rpc.HandleResolve, Rpc.HandleRelease, Rpc.HandleDisembargo;
      match m
      case Bootstrap(id) => error := HandleBootstrap(id);
      case Call(id, target, caps) => error := HandleCall(id, target, caps);
      case Return(id, ret) => error := HandleReturn(id, ret);
      case Finish(id, release) => error := HandleFinish(id, release);
      case Resolve(p, resolution) => error := HandleResolve(p, resolution, called);
      case Release(id, count) => error := HandleRelease(id, count);
      case Disembargo(target, context) => error := HandleDisembargo(target, context, leads);
      case Unimplemented => error := Some(PeerUnimplemented);
    }
  }

  lemma {:induction false} Fails(v: Vat, ids: seq<nat>, i: nat)
    requires i <= |ids| && Rpc.ReleaseExports(v, ids[..i]).None?
    ensures Rpc.ReleaseExports(v, ids).None?
    decreases |ids| - i
  {
    if i == |ids| {
      assert ids[..i] == ids;
    } else {
      assert ids[..i + 1][..i] == ids[..i];
      Fails(v, ids, i + 1);
    }
  }

  /** What a descriptor stands for does not depend on the imports or the questions. */
  lemma ReceivesAlike(v: Vat, w: Vat, desc: Desc)
    requires w.exports == v.exports && w.answers == v.answers
    ensures Received(w, desc) == Received(v, desc)
  {
  }

  lemma {:induction false} ReceiveIgnoresQuestions(v: Vat, questions: Slots<Question>, descs: seq<Desc>)
    ensures Rpc.ReceiveCaps(v.(questions := questions), descs) ==
      Rpc.ReceiveCaps(v, descs).(questions := questions)
  {
    hide Rpc.ReceiveCap;
    if descs == [] {
    } else {
      var init, last := descs[..|descs| - 1], descs[|descs| - 1];
      ReceiveIgnoresQuestions(v, questions, init);
      ReceiveOneIgnoresQuestions(Rpc.ReceiveCaps(v, init), questions, last);
    }
  }

  lemma ReceiveOneIgnoresQuestions(v: Vat, questions: Slots<Question>, desc: Desc)
    ensures Rpc.ReceiveCap(v.(questions := questions), desc) == Rpc.ReceiveCap(v, desc).(questions := questions)
  {
  }

  lemma SettleOk(v: Vat, q: nat, ret: Ret)
    requires LocalOk(v) && Has(v.questions, q)
    ensures LocalOk(Settle(v, q, ret))
    ensures ret.Results? ==> LocalOk(Rpc.ReceiveCaps(Settle(v, q, ret), ret.caps))
  {
    hide AnswersOk, RunningOk, ExportsOk, ByCapOk, ReceivedAll, Rpc.ReceiveCaps;
    if ret.Results? { ReceiveCapsOk(Settle(v, q, ret), ret.caps); }
  }

  lemma ReleaseExportKeeps(v: Vat, id: nat, count: nat)
    requires LocalOk(v)
    ensures var r := Rpc.ReleaseExport(v, id, count); r.Some? ==> LocalOk(r.value)
  {
  }

  lemma BootstrapUndone(v: Vat)
    requires LocalOk(v)
    ensures var w := Rpc.WriteDescriptors(v, [Some(v.boot)]);
      var r := Rpc.ReleaseExports(w.vat, w.entries);
      && r.Some? && LocalOk(r.value) && SameButExports(v, r.value)
      && forall e: nat :: RefCount(r.value, e) == RefCount(v, e)
  {
    hide QuestionsOk, AnswersOk, RunningOk, ImportsOk, ExportsOk, ByCapOk;
    hide Rpc.WriteDescriptors, Rpc.ReleaseExports, CapRefs, RefCount, Occurs;
    VatSteps.WriteDescriptorsOk(v, [Some(v.boot)]);
    var w := Rpc.WriteDescriptors(v, [Some(v.boot)]);
    VatSteps.ReleaseExportsOk(w.vat, w.entries);
  }
}
