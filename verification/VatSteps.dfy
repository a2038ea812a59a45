/** Every local event and every message handler of a vat, seen from its peer. */
module VatSteps {
  import opened Options
  import opened IdTable
  import opened Rpc
  import opened Traffic
  import opened PeerView

  // ------------------------------------------------------- capability tables

  /** A target that this vat may name: it holds the import or the question. */
  predicate MayName(v: Vat, t: Target) {
    match t
    case ImportedCap(e) => ImportRefs(v, e) > 0
    case PromisedAnswer(q) => HasRef(v, q)
  }

  lemma {:induction false} WriteDescriptorsOk(v: Vat, caps: seq<Option<Hook>>)
    requires LocalOk(v) && UsableCaps(v, caps)
    ensures var w := WriteDescriptors(v, caps);
      && SameButExports(v, w.vat)
      && (forall e: nat :: RefCount(w.vat, e) == RefCount(v, e) + CapRefs(w.descs, e))
      && (forall e: nat :: Occurs(w.entries, e) == CapRefs(w.descs, e))
      && (forall t: Target :: DescOf(t) in w.descs ==> MayName(v, t))
      && (forall e: nat :: PromiseIsFirst(e, w.descs, RefCount(v, e)))
  {
    hide LocalOk, PromiseIsFirst, WriteDescriptor, RefCount, MayName, Usable, DescRefs;
    if caps == [] {
      NothingPromised();
    } else {
      var n := |caps| - 1;
      var init := WriteDescriptors(v, caps[..n]);
      WriteDescriptorsOk(v, caps[..n]);
      var w := WriteDescriptors(v, caps);
      if caps[n].Some? {
        assert Usable(v, caps[n].value);
        WriteDescriptorOk(init.vat, caps[n].value);
        WriteDescriptorNames(init.vat, caps[n].value);
        var last := WriteDescriptor(init.vat, caps[n].value);
        SameNames(v, init.vat, caps[n].value);
        assert w.descs[..|w.descs| - 1] == init.descs;
        if last.entry.Some? {
          assert w.entries[..|w.entries| - 1] == init.entries;
        } else {
          assert w.entries == init.entries;
        }
        assert forall e: nat :: Occurs(w.entries, e) == Occurs(init.entries, e) + One(last.entry == Some(e));
        assert forall e: nat :: CapRefs(w.descs, e) == CapRefs(init.descs, e) + DescRefs(last.desc, e);
      } else {
        assert w.descs[..|w.descs| - 1] == init.descs;
        assert forall e: nat :: DescRefs(NoCap, e) == 0 by { NoCapRefs(); }
      }
      forall e: nat ensures PromiseIsFirst(e, w.descs, RefCount(v, e)) {
        PromiseIsFirstSnoc(e, init.descs, w.descs[|w.descs| - 1], RefCount(v, e));
      }
    }
  }

  lemma NoCapRefs()
    ensures forall e: nat :: DescRefs(NoCap, e) == 0
  {
  }

  lemma NothingPromised()
    ensures forall e: nat, refs: nat :: PromiseIsFirst(e, [], refs)
  {
  }

  lemma SameNames(v: Vat, w: Vat, hook: Hook)
    requires SameButExports(v, w)
    ensures Usable(v, hook) == Usable(w, hook)
    ensures forall t: Target :: MayName(v, t) == MayName(w, t)
  {
  }

  lemma WriteDescriptorNames(v: Vat, hook: Hook)
    requires LocalOk(v)
    ensures forall t: Target :: DescOf(t) == WriteDescriptor(v, hook).desc && Usable(v, hook) ==> MayName(v, t)
  {
  }

  /** Releasing a list of exports works exactly when no export is listed more often than it is referenced, and
      takes off that many references. */
  lemma {:induction false} ReleaseExportsOk(v: Vat, ids: seq<nat>)
    requires LocalOk(v)
    ensures ReleaseExports(v, ids).Some? <==> forall e: nat :: Occurs(ids, e) <= RefCount(v, e)
    ensures var r := ReleaseExports(v, ids);
      r.Some? ==>
        && LocalOk(r.value) && SameButExports(v, r.value)
        && forall e: nat :: RefCount(r.value, e) + Occurs(ids, e) == RefCount(v, e)
  {
    if ids == [] {
    } else {
      var init, last := ids[..|ids| - 1], ids[|ids| - 1];
      ReleaseExportsOk(v, init);
      var r := ReleaseExports(v, init);
      if r.Some? {
        ReleaseExportOk(r.value, last, 1);
        assert forall e: nat :: Occurs(ids, e) == Occurs(init, e) + One(e == last);
        assert RefCount(r.value, last) + Occurs(init, last) == RefCount(v, last);
      } else {
        var e: nat :| Occurs(init, e) > RefCount(v, e);
        assert Occurs(ids, e) > RefCount(v, e);
      }
    }
  }

  lemma ReleaseExportOk(v: Vat, id: nat, count: nat)
    requires LocalOk(v) && count > 0
    ensures ReleaseExport(v, id, count).Some? <==> count <= RefCount(v, id)
    ensures var r := ReleaseExport(v, id, count);
      r.Some? ==>
        && LocalOk(r.value) && SameButExports(v, r.value)
        && forall e: nat :: RefCount(r.value, e) + (if e == id then count else 0) == RefCount(v, e)
  {
  }

  // ------------------------------------------------------------- local events

  /** A message that changes nothing on the asking side. */
  lemma QuietAsker(v: Vat, w: Vat, m: Msg)
    requires w.questions == v.questions && w.imports == v.imports && w.embargoes == v.embargoes
    requires !m.Bootstrap? && !m.Call? && !m.Finish? && !m.Release? && (m.Disembargo? ==> m.context.ReceiverLoopback?)
    requires forall t: Target :: Uses(m, t) ==> MayName(v, t)
    ensures AskerSends(v, w, m)
  {
    hide Uses, CapRefs;
    assert forall q: nat :: Uses(m, PromisedAnswer(q)) ==> HasRef(v, q);
  }

  /** A message that changes nothing on the answering side but for what it exports. */
  lemma QuietAnswerer(v: Vat, w: Vat, m: Msg)
    requires w.answers == v.answers && w.loopbacks == v.loopbacks
    requires !m.Return? && (m.Disembargo? ==> m.context.SenderLoopback?)
    requires forall e: nat :: RefCount(w, e) == RefCount(v, e) + CapRefs(Caps(m), e)
    requires forall e: nat :: PromiseIsFirst(e, Caps(m), RefCount(v, e))
    ensures AnswererSends(v, w, m)
  {
  }

  lemma AskBootstrapSends(v: Vat)
    requires LocalOk(v)
    ensures var r := Do(v, AskBootstrap); Sends(v, r.0, r.1)
  {
    var r := Do(v, AskBootstrap);
    AskSends(v, v, r.1);
  }

  /** Asking a question, after its capabilities have been exported. */
  lemma AskSends(v: Vat, w: Vat, m: Msg)
    requires LocalOk(w) && SameButExports(v, w)
    requires m.Bootstrap? || m.Call?
    requires m.question == NextId(w.questions)
    requires forall t: Target :: Uses(m, t) ==> MayName(v, t)
    requires forall e: nat :: RefCount(w, e) == RefCount(v, e) + CapRefs(Caps(m), e)
    requires forall e: nat :: PromiseIsFirst(e, Caps(m), RefCount(v, e))
    ensures Sends(v, AddQuestion(w), m)
  {
    hide NextId, Uses;
    QuietAnswerer(v, AddQuestion(w), m);
    hide CapRefs, RefCount;
    assert forall q: nat :: Uses(m, PromisedAnswer(q)) ==> HasRef(v, q);
    assert LocalOk(AddQuestion(w));
    assert AskerSends(v, AddQuestion(w), m);
  }

  lemma SendCallSends(v: Vat, target: Hook, caps: seq<Option<Hook>>)
    requires LocalOk(v) && Enabled(v, SendCall(target, caps))
    ensures var r := Do(v, SendCall(target, caps)); Sends(v, r.0, r.1)
  {
    hide WriteDescriptors, Sends, QuestionsOk, AnswersOk, ExportsOk, ByCapOk, CapRefs, RefCount, NextId, AddQuestion;
    WriteDescriptorsOk(v, caps);
    var w := WriteDescriptors(v, caps);
    AskSends(v, w.vat, Do(v, SendCall(target, caps)).1);
  }

  /** The answering side of a `Return`. */
  lemma ReturnAnswerer(v: Vat, w: Vat, q: nat, ids: seq<nat>, ret: Ret)
    requires LocalOk(v) && Open(v, q) && Unreturned(v, q) && !ret.Canceled?
    requires w.answers == v.answers[q := v.answers[q].(returnSent := true, resultExports := ids)]
    requires w.loopbacks == v.loopbacks
    requires forall e: nat :: Occurs(ids, e) == CapRefs(Caps(Return(q, ret)), e)
    requires forall e: nat :: RefCount(w, e) == RefCount(v, e) + CapRefs(Caps(Return(q, ret)), e)
    requires forall e: nat :: PromiseIsFirst(e, Caps(Return(q, ret)), RefCount(v, e))
    ensures AnswererSends(v, w, Return(q, ret))
  {
    hide CapRefs, RefCount, LocalOk;
    assert OpenResults(w) == OpenResults(v)[q := ids];
  }

  lemma CancelAnswerer(v: Vat, q: nat)
    requires LocalOk(v) && q in v.answers && v.answers[q].finished && !v.answers[q].returnSent
    ensures AnswererSends(v, v.(answers := v.answers - {q}), Return(q, Canceled))
  {
    hide LocalOk;
    assert OpenResults(v.(answers := v.answers - {q})) == OpenResults(v);
  }

  lemma RespondOk(v: Vat, q: nat, results: Option<seq<Option<Hook>>>)
    requires LocalOk(v) && q in v.answers && q !in v.running
    ensures LocalOk(Respond(v, q, results).0)
  {
    hide WriteDescriptors;
  }

  lemma RespondSends(v: Vat, q: nat, results: Option<seq<Option<Hook>>>)
    requires LocalOk(v) && q in v.answers && q !in v.running && !v.answers[q].returnSent
    requires results.Some? ==> UsableCaps(v, results.value)
    ensures var r := Respond(v, q, results); Sends(v, r.0, r.1)
  {
    hide LocalOk, WriteDescriptors, AskerSends, AnswererSends, RefCount, MayName;
    RespondOk(v, q, results);
    var r := Respond(v, q, results);
    if v.answers[q].finished {
      CancelAnswerer(v, q);
    } else if results.None? {
      SameExports(v, r.0);
      ReturnAnswerer(v, r.0, q, [], Exception);
    } else {
      WriteDescriptorsOk(v, results.value);
      var w := WriteDescriptors(v, results.value);
      assert Caps(r.1) == w.descs;
      assert forall e: nat :: RefCount(r.0, e) == RefCount(w.vat, e) by { SameExports(r.0, w.vat); }
      ReturnAnswerer(v, r.0, q, w.entries, Results(w.descs));
    }
    QuietAsker(v, r.0, r.1);
  }

  /** A call that is done still has its answer, unreturned, and returns once. */
  lemma SendReturnSends(v: Vat, q: nat, results: Option<seq<Option<Hook>>>)
    requires LocalOk(v) && Enabled(v, SendReturn(q, results))
    ensures var r := Do(v, SendReturn(q, results)); Sends(v, r.0, r.1)
  {
    var w := EndCall(v, q);
    assert LocalOk(w) && q in w.answers && !w.answers[q].returnSent;
    hide LocalOk, WriteDescriptors, Respond, Sends;
    RespondSends(w, q, results);
    var r := Respond(w, q, results);
    SendsFrom(v, w, r.0, r.1);
  }

  /** The peer does not see which calls are being worked on. */
  lemma SameView(v: Vat, x: Vat)
    requires x == v.(running := x.running)
    ensures forall q: nat :: HasRef(x, q) == HasRef(v, q) && Awaiting(x, q) == Awaiting(v, q)
    ensures forall q: nat :: Open(x, q) == Open(v, q) && Unreturned(x, q) == Unreturned(v, q)
    ensures forall e: nat :: RefCount(x, e) == RefCount(v, e)
    ensures forall e: nat :: ImportRefs(x, e) == ImportRefs(v, e)
    ensures OpenResults(x) == OpenResults(v) && Held(x) == Held(v)
  {
  }

  lemma SendsFrom(v: Vat, x: Vat, w: Vat, m: Msg)
    requires x == v.(running := x.running) && Sends(x, w, m)
    ensures Sends(v, w, m)
  {
    hide LocalOk, Legal, Next, Weigh, Uses, CapRefs, PromiseIsFirst, Tasks, ResultsSent, Caps;
    hide HasRef, Awaiting, Open, Unreturned, RefCount, ImportRefs, OpenResults, Held, Has;
    SameView(v, x);
  }

  lemma GetsTo(v: Vat, w: Vat, x: Vat, m: Msg)
    requires x == w.(running := x.running) && Gets(v, w, m) && LocalOk(x)
    ensures Gets(v, x, m)
  {
    hide LocalOk, AskerGets, AnswererGets;
    AskerGetsTo(v, w, x, m);
    AnswererGetsTo(v, w, x, m);
  }

  lemma AskerGetsTo(v: Vat, w: Vat, x: Vat, m: Msg)
    requires x == w.(running := x.running) && AskerGets(v, w, m)
    ensures AskerGets(v, x, m)
  {
    hide Weigh, HasRef, Awaiting, RefCount, ImportRefs, Held, Has;
    SameView(w, x);
  }

  lemma AnswererGetsTo(v: Vat, w: Vat, x: Vat, m: Msg)
    requires x == w.(running := x.running) && AnswererGets(v, w, m)
    ensures AnswererGets(v, x, m)
  {
    hide Next, Weigh, Tasks, FinishRefs, NextResults, Open, Unreturned, RefCount, OpenResults;
    SameView(w, x);
  }

  lemma NotRunning(v: Vat, q: nat)
    requires LocalOk(v) && q !in v.answers
    ensures q !in v.running
  {
  }

  lemma SameExports(v: Vat, w: Vat)
    requires v.exports == w.exports
    ensures forall e: nat :: RefCount(v, e) == RefCount(w, e)
  {
  }

  lemma ForgetQuestionSends(v: Vat, q: nat)
    requires LocalOk(v) && HasRef(v, q)
    ensures var r := ForgetQuestion(v, q); Sends(v, r.0, r.1)
  {
    var r := ForgetQuestion(v, q);
    QuietAnswerer(v, r.0, r.1);
    hide AnswererSends, RefCount;
  }

  lemma DropImportSends(v: Vat, i: nat)
    requires LocalOk(v) && i in v.imports
    ensures var r := Do(v, DropImport(i)); Sends(v, r.0, r.1)
  {
    var r := Do(v, DropImport(i));
    QuietAnswerer(v, r.0, r.1);
    hide AnswererSends, RefCount;
  }

  lemma ResolveExportSends(v: Vat, e: nat, resolution: Option<Hook>)
    requires LocalOk(v) && Enabled(v, ResolveExport(e, resolution))
    ensures var r := Do(v, ResolveExport(e, resolution)); Sends(v, r.0, r.1)
  {
    var r := Do(v, ResolveExport(e, resolution));
    if resolution.None? {
      QuietAnswerer(v, r.0, r.1);
      QuietAsker(v, r.0, r.1);
    } else {
      ResolveToSends(v, e, resolution.value);
    }
  }

  lemma ResolveToSends(v: Vat, e: nat, hook: Hook)
    requires LocalOk(v) && Has(v.exports, e) && Usable(v, hook)
    requires LocalOk(Repoint(v, e, hook))
    ensures var w := WriteDescriptor(Repoint(v, e, hook), hook); Sends(v, w.vat, Resolve(e, ToCap(w.desc)))
  {
    hide LocalOk, AskerSends, AnswererSends;
    var x := Repoint(v, e, hook);
    var w := WriteDescriptor(x, hook);
    RepointOk(v, e, hook);
    WriteDescriptorOk(x, hook);
    SameNames(v, x, hook);
    WriteDescriptorNames(x, hook);
    var m := Resolve(e, ToCap(w.desc));
    hide Repoint, RefCount, MayName, DescRefs;
    assert Caps(m) == [w.desc];
    assert forall k: nat :: CapRefs([w.desc], k) == DescRefs(w.desc, k);
    QuietAnswerer(v, w.vat, m);
    QuietAsker(v, w.vat, m);
  }

  lemma StartEmbargoSends(v: Vat, target: Target)
    requires LocalOk(v) && MayName(v, target)
    ensures var r := StartEmbargo(v, target); Sends(v, r.0, r.1)
  {
    hide NextId;
    var r := StartEmbargo(v, target);
    QuietAnswerer(v, r.0, r.1);
    hide AnswererSends, RefCount, CapRefs;
  }

  lemma RunLoopbackSends(v: Vat, k: nat)
    requires LocalOk(v) && Enabled(v, RunLoopback(k))
    ensures var r := Do(v, RunLoopback(k)); Sends(v, r.0, r.1)
  {
    var r := Do(v, RunLoopback(k));
    QuietAsker(v, r.0, r.1);
    SameExports(v, r.0);
    TasksWithout(v.loopbacks, k);
    hide AskerSends, RefCount, Tasks;
  }

  lemma {:induction false} TasksWithout(loopbacks: seq<Loopback>, k: nat)
    requires k < |loopbacks|
    ensures forall id: nat ::
      Tasks(loopbacks[..k] + loopbacks[k + 1..], id) + One(loopbacks[k].embargo == id) == Tasks(loopbacks, id)
  {
    var n := |loopbacks| - 1;
    if k == n {
      assert loopbacks[..k] + loopbacks[k + 1..] == loopbacks[..n];
    } else {
      TasksWithout(loopbacks[..n], k);
      var rest := loopbacks[..k] + loopbacks[k + 1..];
      assert rest[..n - 1] == loopbacks[..n][..k] + loopbacks[..n][k + 1..];
    }
  }

  /** Every local event is a legal move in both roles. */
  lemma DoSends(v: Vat, a: Action)
    requires LocalOk(v) && Enabled(v, a)
    ensures var r := Do(v, a); Sends(v, r.0, r.1)
  {
    hide LocalOk, Sends;
    match a
    case AskBootstrap => AskBootstrapSends(v);
    case SendCall(target, caps) => SendCallSends(v, target, caps);
    case SendReturn(q, results) => SendReturnSends(v, q, results);
    case DropQuestionRef(q) => ForgetQuestionSends(v, q);
    case DropImport(i) => DropImportSends(v, i);
    case ResolveExport(e, resolution) => ResolveExportSends(v, e, resolution);
    case EmbargoAnswer(q, _) => StartEmbargoSends(v, PromisedAnswer(q));
    case RunLoopback(k) => RunLoopbackSends(v, k);
  }

  lemma WriteSingle(v: Vat, hook: Hook)
    requires LocalOk(v)
    ensures var w := WriteDescriptor(v, hook);
      WriteDescriptors(v, [Some(hook)]) == WrittenAll(w.vat, [w.desc], if w.entry.Some? then [w.entry.value] else [])
  {
    hide LocalOk, WriteDescriptor;
    assert [Some(hook)][..0] == [];
  }

  /** Exporting does not look at the answers. */
  lemma WriteIgnoresAnswers(v: Vat, x: Vat, hook: Hook)
    requires LocalOk(v) && LocalOk(x) && x == v.(answers := x.answers)
    ensures var w := WriteDescriptor(v, hook);
      w.vat.answers == v.answers && WriteDescriptor(x, hook) == w.(vat := w.vat.(answers := x.answers))
  {
    hide QuestionsOk, AnswersOk, ImportsOk, NextId;
  }

  /** Answering a bootstrap question in the order of the code: the capability is exported first. */
  lemma BootstrapAnswered(v: Vat, id: nat)
    requires LocalOk(v) && id !in v.answers
    ensures var w := WriteDescriptors(v, [Some(v.boot)]);
      var x := w.vat.(answers := w.vat.answers[id := Answer(true, true, false, w.entries)]);
      LocalOk(x) && HandleBootstrap(v, id) == Ok(x, [Return(id, Results(w.descs))])
  {
    hide LocalOk, WriteDescriptors, WriteDescriptor;
    var asked := AddAnswer(v, id);
    WriteSingle(v, v.boot);
    WriteSingle(asked, v.boot);
    WriteIgnoresAnswers(v, asked, v.boot);
    NotRunning(v, id);
    RespondOk(asked, id, Some([Some(v.boot)]));
    var w := WriteDescriptors(v, [Some(v.boot)]);
    var answer := Answer(true, true, false, w.entries);
    assert asked.answers[id := answer] == w.vat.answers[id := answer];
  }

  // -------------------------------------------------------------- messages in

  /** A message that brings an asker nothing but references. */
  lemma QuietAskerGets(v: Vat, w: Vat, m: Msg)
    requires w.questions == v.questions && w.embargoes == v.embargoes
    requires !m.Return? && (m.Disembargo? ==> m.context.SenderLoopback?)
    requires forall e: nat :: ImportRefs(w, e) == ImportRefs(v, e) + CapRefs(Caps(m), e)
    ensures AskerGets(v, w, m)
  {
    hide ImportRefs, CapRefs;
  }

  /** A message that means nothing to an answerer. */
  lemma QuietAnswererGets(v: Vat, w: Vat, m: Msg)
    requires w.answers == v.answers && w.loopbacks == v.loopbacks && w.exports == v.exports
    requires !m.Bootstrap? && !m.Call? && !m.Finish? && !m.Release? && (m.Disembargo? ==> m.context.ReceiverLoopback?)
    ensures AnswererGets(v, w, m)
  {
    hide Tasks;
  }

  lemma AskAnswererGets(v: Vat, w: Vat, q: nat, m: Msg)
    requires q !in v.answers && w.answers == v.answers[q := Answer(false, true, false, [])]
    requires w.loopbacks == v.loopbacks && w.exports == v.exports
    requires (m.Bootstrap? || m.Call?) && m.question == q
    ensures AnswererGets(v, w, m)
  {
    hide Tasks;
    SameExports(v, w);
    hide RefCount;
    assert OpenResults(w) == OpenResults(v)[q := []];
    assert forall k: nat :: Open(w, k) == (Open(v, k) || k == q) && Unreturned(w, k) == (Unreturned(v, k) || k == q);
    assert !Open(v, q) && !Unreturned(v, q);
    hide Open, Unreturned, OpenResults;
  }

  lemma AskGets(v: Vat, w: Vat, q: nat, m: Msg)
    requires LocalOk(v) && LocalOk(w) && q !in v.answers && w == v.(imports := w.imports)
    requires (m.Bootstrap? || m.Call?) && m.question == q
    requires forall e: nat :: ImportRefs(w, e) == ImportRefs(v, e) + CapRefs(Caps(m), e)
    ensures Gets(v, AddAnswer(w, q), m)
  {
    hide LocalOk, AskerGets, AnswererGets, CapRefs;
    QuietAskerGets(v, AddAnswer(w, q), m);
    AskAnswererGets(v, AddAnswer(w, q), q, m);
  }

  lemma BootstrapGets(v: Vat, q: nat)
    requires LocalOk(v) && q !in v.answers
    ensures Gets(v, AddAnswer(v, q), Bootstrap(q))
    ensures var r := HandleBootstrap(v, q); r.Ok? && |r.out| == 1 && Sends(AddAnswer(v, q), r.vat, r.out[0])
  {
    hide Gets, Sends;
    NotRunning(v, q);
    AskGets(v, v, q, Bootstrap(q));
    RespondSends(AddAnswer(v, q), q, Some([Some(v.boot)]));
  }

  lemma CallGets(v: Vat, q: nat, target: Target, caps: seq<Desc>)
    requires LocalOk(v) && q !in v.answers && Found(v, target)
    ensures var r := HandleCall(v, q, target, caps); r.Ok? && r.out == [] && Gets(v, r.vat, Call(q, target, caps))
    ensures Enabled(HandleCall(v, q, target, caps).vat, SendReturn(q, None))
  {
    hide Gets, LocalOk;
    ReceiveCapsOk(v, caps);
    var w := ReceiveCaps(v, caps);
    AskGets(v, w, q, Call(q, target, caps));
    GetsTo(v, AddAnswer(w, q), StartCall(w, q, Work(Lookup(v, target), ReceivedAll(v, caps))), Call(q, target, caps));
  }

  lemma ReturnAskerGets(v: Vat, w: Vat, q: nat, ret: Ret)
    requires Awaiting(v, q) && w.embargoes == v.embargoes
    requires w.questions == if HasRef(v, q) then Settle(v, q, ret).questions else Without(v.questions, q)
    requires forall e: nat ::
      ImportRefs(w, e) == ImportRefs(v, e) + if HasRef(v, q) then CapRefs(Caps(Return(q, ret)), e) else 0
    ensures AskerGets(v, w, Return(q, ret))
  {
    hide ImportRefs, CapRefs;
    assert q in Held(v) <==> HasRef(v, q);
  }

  lemma ReturnGets(v: Vat, q: nat, ret: Ret)
    requires LocalOk(v) && Awaiting(v, q) && (ret.Canceled? ==> !HasRef(v, q))
    ensures var r := HandleReturn(v, q, ret); r.Ok? && r.out == [] && Gets(v, r.vat, Return(q, ret))
  {
    hide AskerGets, AnswererGets, ReceiveCaps, ExportsOk, AnswersOk, ByCapOk;
    var asked := Settle(v, q, ret);
    if HasRef(v, q) && ret.Results? { ReceiveCapsOk(asked, ret.caps); }
    var r := HandleReturn(v, q, ret);
    QuietAnswererGets(v, r.vat, Return(q, ret));
    ReturnAskerGets(v, r.vat, q, ret);
  }

  lemma FinishAnswererGets(v: Vat, w: Vat, q: nat, release: bool, ids: seq<nat>)
    requires Open(v, q) && w.loopbacks == v.loopbacks
    requires if v.answers[q].returnSent then w.answers == v.answers - {q}
      else
        && q in w.answers && w.answers == v.answers[q := w.answers[q]]
        && w.answers[q].finished && !w.answers[q].returnSent
    requires ids == if release then v.answers[q].resultExports else []
    requires forall e: nat :: RefCount(w, e) + Occurs(ids, e) == RefCount(v, e)
    ensures AnswererGets(v, w, Finish(q, release))
  {
    hide Tasks, RefCount;
    assert OpenResults(w) == OpenResults(v) - {q};
    assert forall e: nat :: FinishRefs(e, Finish(q, release), OpenResults(v)) == Occurs(ids, e);
  }

  lemma FinishGets(v: Vat, q: nat, release: bool)
    requires LocalOk(v) && Open(v, q)
    requires release ==> forall e: nat :: Occurs(v.answers[q].resultExports, e) <= RefCount(v, e)
    ensures var r := HandleFinish(v, q, release); r.Ok? && r.out == [] && Gets(v, r.vat, Finish(q, release))
  {
    hide AskerGets, AnswererGets, ReleaseExports, Tasks, RefCount, ExportsOk, QuestionsOk, ImportsOk, ByCapOk;
    var a := v.answers[q];
    var ids := if release then a.resultExports else [];
    var w := CloseAnswer(v, q, release);
    assert LocalOk(w);
    SameExports(v, w);
    ReleaseExportsOk(w, ids);
    var r := HandleFinish(v, q, release);
    QuietAskerGets(v, r.vat, Finish(q, release));
    FinishAnswererGets(v, r.vat, q, release, ids);
  }

  lemma ReleaseGets(v: Vat, id: nat, count: nat)
    requires LocalOk(v) && 0 < count <= RefCount(v, id)
    ensures var r := HandleRelease(v, id, count); r.Ok? && r.out == [] && Gets(v, r.vat, Release(id, count))
  {
    hide LocalOk;
    ReleaseExportOk(v, id, count);
    var r := HandleRelease(v, id, count);
    hide ReleaseExport;
    QuietAskerGets(v, r.vat, Release(id, count));
    hide AskerGets, RefCount, ImportRefs, Tasks, Held;
  }

  /** A `Resolve` brings its capability, and may set up an embargo; only a promise can be resolved. */
  lemma ResolveGets(v: Vat, p: nat, resolution: Resolution, called: bool) returns (mid: Vat)
    requires LocalOk(v) && resolution != ToCap(NoCap)
    ensures var r := HandleResolve(v, p, resolution, called);
      if r.Err? then r.error == ResolveOfNonPromise
      else
        && Gets(v, mid, Resolve(p, resolution)) && mid == r.vat.(embargoes := v.embargoes)
        && (r == Ok(mid, []) || (|r.out| == 1 && Sends(mid, r.vat, r.out[0])))
  {
    var m := Resolve(p, resolution);
    var w := if resolution.ToCap? then ReceiveCap(v, resolution.desc) else v;
    ReceiveCapsOk(v, Caps(m));
    assert w == ReceiveCaps(v, Caps(m));
    hide ReceiveCap, ReceiveCaps;
    mid := w;
    if p in w.imports { mid := w.(imports := w.imports[p := w.imports[p].(promise := false)]); }
    assert LocalOk(mid);
    hide LocalOk;
    assert forall e: nat :: ImportRefs(mid, e) == ImportRefs(w, e);
    QuietAskerGets(v, mid, m);
    QuietAnswererGets(v, mid, m);
    hide AskerGets, AnswererGets;
    if p in w.imports && w.imports[p].promise {
      ImportsAre(mid);
      assert MayName(mid, ImportedCap(p));
      StartEmbargoSends(mid, ImportedCap(p));
    }
  }

  lemma ImportsAre(v: Vat)
    requires LocalOk(v)
    ensures ImportsOk(v.imports)
  {
  }

  lemma DisembargoGets(v: Vat, target: Target, context: Context, leads: Hook)
    requires LocalOk(v) && Found(v, target)
    requires context.ReceiverLoopback? ==> Has(v.embargoes, context.embargo)
    ensures var r := HandleDisembargo(v, target, context, leads);
      if r.Err? then r.error == NotLoopback
      else r.out == [] && Gets(v, r.vat, Disembargo(target, context))
  {
    var m := Disembargo(target, context);
    var r := HandleDisembargo(v, target, context, leads);
    if r.Ok? {
      assert LocalOk(r.vat);
      hide LocalOk;
      hide AskerGets, AnswererGets;
      if context.SenderLoopback? {
        QuietAskerGets(v, r.vat, m);
        LoopAnswererGets(v, r.vat, target, context.embargo);
      } else {
        QuietAnswererGets(v, r.vat, m);
        EchoAskerGets(v, r.vat, target, context.embargo);
      }
    }
  }

  lemma LoopAnswererGets(v: Vat, w: Vat, target: Target, id: nat)
    requires w == v.(loopbacks := w.loopbacks) && |w.loopbacks| == |v.loopbacks| + 1
    requires w.loopbacks[..|v.loopbacks|] == v.loopbacks && w.loopbacks[|v.loopbacks|].embargo == id
    ensures AnswererGets(v, w, Disembargo(target, SenderLoopback(id)))
  {
    hide RefCount;
    SameExports(v, w);
  }

  lemma EchoAskerGets(v: Vat, w: Vat, target: Target, id: nat)
    requires Has(v.embargoes, id) && w == v.(embargoes := Without(v.embargoes, id))
    ensures AskerGets(v, w, Disembargo(target, ReceiverLoopback(id)))
  {
  }

  /** These messages do not touch the exports. */
  lemma ExportsUntouched(v: Vat, m: Msg, called: bool, leads: Hook)
    requires LocalOk(v) && (m.Call? || m.Return? || m.Resolve? || m.Disembargo?) && Handle(v, m, called, leads).Ok?
    ensures Handle(v, m, called, leads).vat.exports == v.exports
  {
    hide LocalOk, ReceiveCaps, Received, ReceivedAll, LeadsOver;
    match m
    case Call(_, _, caps) => ReceiveCapsOk(v, caps);
    case Return(q, ret) => if ret.Results? { ReceiveCapsOk(Settle(v, q, ret), ret.caps); }
    case _ =>
  }

  /** `mid` is the state between taking in `m` and replying to it. */
  predicate Taken(v: Vat, m: Msg, w: Vat, mid: Vat) {
    match m
    case Bootstrap(q) => mid == v.(answers := v.answers[q := Answer(false, true, false, [])])
    case Resolve(_, _) => mid == w.(embargoes := v.embargoes)
    case _ => mid == w
  }

  /** Every message that a vat can be sent is taken in without error but for two: a `Resolve` for an import
      that is not a promise, and a `senderLoopback` for something that does not lead back. What it sends in
      reply is a step of its own. */
  lemma HandleGets(v: Vat, m: Msg, called: bool, leads: Hook) returns (mid: Vat)
    requires LocalOk(v) && Ready(v, m)
    ensures var r := Handle(v, m, called, leads);
      if r.Err? then (m.Resolve? && r.error == ResolveOfNonPromise) || (m.Disembargo? && r.error == NotLoopback)
      else
        && Gets(v, mid, m) && (r == Ok(mid, []) || (|r.out| == 1 && Sends(mid, r.vat, r.out[0])))
        && Taken(v, m, r.vat, mid)
  {
    hide LocalOk, Gets, Sends, HandleBootstrap, HandleCall, HandleReturn, HandleFinish;
    hide HandleResolve, HandleRelease, HandleDisembargo;
    var r := Handle(v, m, called, leads);
    mid := if r.Ok? then r.vat else v;
    match m
    case Bootstrap(q) => BootstrapGets(v, q); mid := AddAnswer(v, q);
    case Call(q, target, caps) =>
      assert Uses(m, target);
      CallGets(v, q, target, caps);
    case Return(q, ret) => ReturnGets(v, q, ret);
    case Finish(q, release) => FinishGets(v, q, release);
    case Resolve(p, resolution) => mid := ResolveGets(v, p, resolution, called);
    case Release(id, count) => ReleaseGets(v, id, count);
    case Disembargo(target, context) =>
      assert Uses(m, target);
      DisembargoGets(v, target, context, leads);
  }
}
