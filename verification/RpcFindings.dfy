/** Runs that show where the protocol as coded falls short. */
module RpcFindings {
  import opened Options
  import opened IdTable
  import opened Rpc
  import opened VatSteps
  import opened RpcRuns
  import opened Promises

  function Fresh(boot: Hook): Vat {
    Vat(boot, [], [], map[], map[], map[], map[], [], [])
  }

  /** The vat on the right offers a promise as its bootstrap capability. */
  function Start(): System {
    System(Fresh(Local(0)), Fresh(LocalPromise(7)), [], [])
  }

  /** A question that has been answered with the import 0. */
  function Answered(): Question {
    Question(false, true, Replied([Client(Hook.Imported(0))]))
  }

  function Asked(): System {
    var s := Start();
    s.(left := s.left.(questions := [Some(Question(true, true, Waiting))]), toRight := [Bootstrap(0)])
  }

  function Promised(): System {
    var s := Asked();
    s.(right := s.right.(
         exports := [Some(Export(1, LocalPromise(7), true))], byCap := map[7 := 0],
         answers := map[0 := Answer(true, true, false, [0])]),
       toRight := [], toLeft := [Return(0, Results([SenderPromise(0)]))])
  }

  function Imported(): System {
    var s := Promised();
    s.(left := s.left.(questions := [Some(Answered())], imports := map[0 := Import(1, true)]), toLeft := [])
  }

  function AskedAgain(): System {
    var s := Imported();
    s.(left := s.left.(questions := [Some(Answered()), Some(Question(true, true, Waiting))]),
       toRight := [Bootstrap(1)])
  }

  /** Exported again before it is resolved, the promise goes out as `senderHosted`. */
  function Again(): System {
    var s := AskedAgain();
    s.(right := s.right.(
         exports := [Some(Export(2, LocalPromise(7), true))],
         answers := map[0 := Answer(true, true, false, [0]), 1 := Answer(true, true, false, [0])]),
       toRight := [], toLeft := [Return(1, Results([SenderHosted(0)]))])
  }

  function Dropped(): System {
    var s := Again();
    s.(left := s.left.(imports := map[]), toRight := [Release(0, 1)])
  }

  function ResolveSent(): System {
    var s := Dropped();
    s.(right := s.right.(
         exports := [Some(Export(2, Local(9), false)), Some(Export(1, Local(9), false))], byCap := map[9 := 1]),
       toLeft := [Return(1, Results([SenderHosted(0)])), Resolve(0, ToCap(SenderHosted(1)))])
  }

  function Stuck(): System {
    var s := ResolveSent();
    s.(left := s.left.(
         questions := [Some(Answered()), Some(Answered())],
         imports := map[0 := Import(1, false)]),
       toLeft := [Resolve(0, ToCap(SenderHosted(1)))])
  }

  lemma FirstSteps()
    ensures Step(Start(), Asked()) && Step(Imported(), AskedAgain())
  {
    assert LeftStep(Start(), Act(AskBootstrap), Asked());
    assert LeftStep(Imported(), Act(AskBootstrap), AskedAgain());
  }

  /** The right vat answers a bootstrap question. */
  lemma StepBootstrap(s: System, t: System, q: nat)
    requires LocalOk(s.right) && s.toRight == [Bootstrap(q)] && s.toLeft == [] && q !in s.right.answers
    requires var w := WriteDescriptor(s.right, s.right.boot);
      && w.entry.Some?
      && t == System(
           s.left, w.vat.(answers := w.vat.answers[q := Answer(true, true, false, [w.entry.value])]),
           [], [Return(q, Results([w.desc]))])
    ensures Step(s, t)
  {
    hide LocalOk, WriteDescriptor, HandleBootstrap, WriteDescriptors;
    BootstrapAnswered(s.right, q);
    WriteSingle(s.right, s.right.boot);
    assert Mirror(s).toLeft == [Bootstrap(q)] && [Bootstrap(q)][1..] == [];
    OnRight(s, Receive(false, Local(0)), t);
  }

  lemma StepPromised()
    ensures Step(Asked(), Promised())
  {
    var v := Asked().right;
    assert LocalOk(v);
    var w := WriteDescriptor(v, v.boot);
    assert w.vat == v.(exports := [Some(Export(1, LocalPromise(7), true))], byCap := map[7 := 0]);
    assert w.desc == SenderPromise(0) && w.entry == Some(0);
    assert w.vat.answers[0 := Answer(true, true, false, [0])] == Promised().right.answers;
    hide LocalOk, WriteDescriptor;
    StepBootstrap(Asked(), Promised(), 0);
  }

  lemma StepImported()
    ensures Step(Promised(), Imported())
  {
    var s := Promised();
    assert [SenderPromise(0)][..0] == [];
    assert ReceivedAll(s.left, [SenderPromise(0)]) == [Client(Hook.Imported(0))];
    assert Handle(s.left, s.toLeft[0], false, Local(0)) == Ok(Imported().left, []);
    OnLeft(s, Receive(false, Local(0)), Imported());
  }

  lemma StepAgain()
    ensures Step(AskedAgain(), Again())
  {
    var v := AskedAgain().right;
    assert LocalOk(v);
    var w := WriteDescriptor(v, v.boot);
    assert w.vat == v.(exports := [Some(Export(2, LocalPromise(7), true))]);
    assert w.desc == SenderHosted(0) && w.entry == Some(0);
    assert w.vat.answers[1 := Answer(true, true, false, [0])] == Again().right.answers;
    hide LocalOk, WriteDescriptor;
    StepBootstrap(AskedAgain(), Again(), 1);
  }

  lemma StepDropped()
    ensures Step(Again(), Dropped())
  {
    assert Again().left.imports - {0} == map[];
    OnLeft(Again(), Act(DropImport(0)), Dropped());
  }

  lemma StepResolveSent()
    ensures Step(Dropped(), ResolveSent())
  {
    var s, t := Mirror(Dropped()), Mirror(ResolveSent());
    RepointOk(s.left, 0, Local(9));
    var x := Repoint(s.left, 0, Local(9));
    assert x.byCap == map[];
    assert WriteDescriptor(x, Local(9)) == Written(t.left, SenderHosted(1), Some(1));
    assert Do(s.left, ResolveExport(0, Some(Local(9)))) == (t.left, Resolve(0, ToCap(SenderHosted(1))));
    OnRight(Dropped(), Act(ResolveExport(0, Some(Local(9)))), ResolveSent());
  }

  lemma StepStuck()
    ensures Step(ResolveSent(), Stuck())
  {
    var s := ResolveSent();
    assert [SenderHosted(0)][..0] == [];
    assert ReceivedAll(s.left, [SenderHosted(0)]) == [Client(Hook.Imported(0))];
    assert Handle(s.left, s.toLeft[0], false, Local(0)) == Ok(Stuck().left, []);
    OnLeft(s, Receive(false, Local(0)), Stuck());
  }

  lemma StuckRefuses()
    ensures RefusesResolve(Stuck())
  {
  }

  lemma ReachStart()
    ensures Reachable(Start())
  {
    assert Run([Start()]) && [Start()][0] == Start();
  }

  lemma ReachImported()
    ensures Reachable(Imported())
  {
    hide Step, Reachable, Start, Asked, Promised, Imported;
    FirstSteps();
    ReachStart();
    ReachNext(Start(), Asked());
    StepPromised();
    ReachNext(Asked(), Promised());
    StepImported();
    ReachNext(Promised(), Imported());
  }

  /** Two vats can come to a `Resolve` that is refused: the promise was dropped by its importer and exported
      again, as `senderHosted`, before it resolved. So not every `Resolve` finds a promise. */
  lemma ResolveCanFail()
    ensures exists s: System :: Reachable(s) && RefusesResolve(s)
  {
    hide Step, Reachable, RefusesResolve, Start, Asked, Promised, Imported;
    hide AskedAgain, Again, Dropped, ResolveSent, Stuck;
    FirstSteps();
    ReachImported();
    ReachNext(Imported(), AskedAgain());
    StepAgain();
    ReachNext(AskedAgain(), Again());
    StepDropped();
    ReachNext(Again(), Dropped());
    StepResolveSent();
    ReachNext(Dropped(), ResolveSent());
    StepStuck();
    ReachNext(ResolveSent(), Stuck());
    StuckRefuses();
  }

  // ------------------------------------------------- eviction from the reverse map

  /** The reverse map leads from the address of an export's capability back to that export. */
  predicate Listed(v: Vat, e: nat) {
    && Has(v.exports, e) && IsLocal(v.exports[e].value.hook)
    && v.exports[e].value.hook.ptr in v.byCap && v.byCap[v.exports[e].value.hook.ptr] == e
  }

  /** A release leaves every other export listed, unless it takes off the last reference to an export under whose
      address the map lists another one. */
  lemma ReleaseEvictsIff(v: Vat, id: nat, count: nat)
    requires LocalOk(v) && ReleaseExport(v, id, count).Some?
    ensures var w, exp := ReleaseExport(v, id, count).value, v.exports[id].value;
      (forall e: nat | e != id && Listed(v, e) :: Listed(w, e)) <==>
      !(count == exp.refcount && IsLocal(exp.hook) && exp.hook.ptr in v.byCap && v.byCap[exp.hook.ptr] != id)
  {
    var w, exp := ReleaseExport(v, id, count).value, v.exports[id].value;
    if count == exp.refcount && IsLocal(exp.hook) && exp.hook.ptr in v.byCap && v.byCap[exp.hook.ptr] != id {
      var e := v.byCap[exp.hook.ptr];
      assert Listed(v, e) && !Listed(w, e);
    }
  }

  /** The promise resolves to a capability, which is exported in turn. */
  function ResolvedTo(): System {
    var s := Imported();
    s.(right := s.right.(
         exports := [Some(Export(1, Local(9), false)), Some(Export(1, Local(9), false))], byCap := map[9 := 1]),
       toLeft := [Resolve(0, ToCap(SenderHosted(1)))])
  }

  /** The importer drops the promise. */
  function PromiseDropped(): System {
    var s := ResolvedTo();
    s.(left := s.left.(imports := map[]), toRight := [Release(0, 1)])
  }

  function Evicted(): System {
    var s := PromiseDropped();
    s.(right := s.right.(exports := [None, Some(Export(1, Local(9), false))], byCap := map[]), toRight := [])
  }

  lemma StepResolvedTo()
    ensures Step(Imported(), ResolvedTo())
  {
    var s, t := Mirror(Imported()), Mirror(ResolvedTo());
    RepointOk(s.left, 0, Local(9));
    var x := Repoint(s.left, 0, Local(9));
    assert x.byCap == map[];
    assert WriteDescriptor(x, Local(9)) == Written(t.left, SenderHosted(1), Some(1));
    assert Do(s.left, ResolveExport(0, Some(Local(9)))) == (t.left, Resolve(0, ToCap(SenderHosted(1))));
    OnRight(Imported(), Act(ResolveExport(0, Some(Local(9)))), ResolvedTo());
  }

  lemma StepPromiseDropped()
    ensures Step(ResolvedTo(), PromiseDropped())
  {
    assert ResolvedTo().left.imports - {0} == map[];
    OnLeft(ResolvedTo(), Act(DropImport(0)), PromiseDropped());
  }

  lemma StepEvicted()
    ensures Step(PromiseDropped(), Evicted())
  {
    var v, w := PromiseDropped().right, Evicted().right;
    assert v.byCap - {9} == w.byCap && Without(v.exports, 0) == w.exports;
    assert LocalOk(v);
    assert Handle(v, Release(0, 1), false, Local(0)) == Ok(w, []);
    OnRight(PromiseDropped(), Receive(false, Local(0)), Evicted());
  }

  /** By one step, export `e` is no longer listed although it is still there, so that its capability would next be
      exported under another id. */
  ghost predicate Evicts(s: System, t: System, e: nat) {
    && Step(s, t) && s.toRight != [] && s.toRight[0].Release?
    && Listed(s.right, e) && Has(t.right.exports, e) && !Listed(t.right, e)
    && LocalOk(t.right) && WriteDescriptor(t.right, t.right.exports[e].value.hook).desc != SenderHosted(e)
  }

  lemma EvictedEvicts()
    ensures Evicts(PromiseDropped(), Evicted(), 1)
  {
    StepEvicted();
    hide Step;
    assert Has(Evicted().right.exports, 1) && LocalOk(Evicted().right);
    assert WriteDescriptor(Evicted().right, Local(9)).desc == SenderHosted(0);
  }

  /** Two vats can come to that: a release of a resolved promise evicts the export of its resolution. */
  lemma ReleaseCanEvict()
    ensures exists s: System, t: System, e: nat :: Reachable(s) && Evicts(s, t, e)
  {
    hide Step, Reachable, Evicts, Start, Asked, Promised, Imported, ResolvedTo, PromiseDropped, Evicted;
    ReachImported();
    StepResolvedTo();
    ReachNext(Imported(), ResolvedTo());
    StepPromiseDropped();
    ReachNext(ResolvedTo(), PromiseDropped());
    EvictedEvicts();
  }
}
