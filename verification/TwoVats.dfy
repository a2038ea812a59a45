/** Two vats joined by two queues. `Half` is what holds between the vat that asks questions and imports
    capabilities, and the vat that answers and exports; a connection is two halves, one each way. */
module TwoVats {
  import opened Options
  import opened IdTable
  import opened Rpc
  import opened Traffic
  import opened PeerView

  // ------------------------------------------------------------ the invariant

  /** One question id: every message about it will come in a legal order, the question awaits just what is
      still to be answered or returned, and a `Finish` before the `Return` asks for a release. */
  predicate QuestionOk(a: Vat, b: Vat, ab: seq<Msg>, ba: seq<Msg>, q: nat) {
    && Safe(q, ab, Open(b, q)) && After(q, ab, Open(b, q)) == HasRef(a, q)
    && Sum(ab, Asks(q)) + One(Unreturned(b, q)) + Sum(ba, Rets(q)) == One(Awaiting(a, q))
    && (HasRef(a, q) ==> Sum(ba, Cancels(q)) == 0)
    && (Awaiting(a, q) && !HasRef(a, q) ==> LastFinish(q, ab) != Some(false))
  }

  /** What a `Return` in flight carries is what the open answer has noted. */
  ghost predicate ReturnOk(b: Vat, ba: seq<Msg>, q: nat) {
    Open(b, q) && Sum(ba, Rets(q)) > 0 ==>
      forall e: nat :: Sum(ba, RetRefs(q, e)) == Occurs(b.answers[q].resultExports, e)
  }

  /** One export: every reference is in flight to the importer, held by it, on its way back, or in results
      that a `Finish` is going to release. */
  predicate Balanced(a: Vat, b: Vat, ab: seq<Msg>, ba: seq<Msg>, e: nat) {
    RefCount(b, e) ==
      Sum(ba, Refs(e, Held(a))) + ImportRefs(a, e) + Sum(ab, Releases(e)) + WillFinish(e, ab, OpenResults(b))
  }

  /** Every use of an export in flight is backed by a reference that is given back later. */
  predicate Backed(refs: nat, ab: seq<Msg>, e: nat) {
    forall k | 0 <= k < |ab| && Uses(ab[k], ImportedCap(e)) :: refs > 0 || Sum(ab[k + 1..], Releases(e)) > 0
  }

  /** A promise in flight to the importer is the first it hears of that export. */
  predicate Announced(a: Vat, ba: seq<Msg>, e: nat) {
    PromisesFirst(e, ba, ImportRefs(a, e), Held(a))
  }

  predicate EmbargoOk(a: Vat, b: Vat, ab: seq<Msg>, ba: seq<Msg>, id: nat) {
    Sum(ab, Loops(id)) + Tasks(b.loopbacks, id) + Sum(ba, Echoes(id)) == One(Has(a.embargoes, id))
  }

  ghost predicate Half(a: Vat, b: Vat, ab: seq<Msg>, ba: seq<Msg>) {
    && (forall q: nat :: QuestionOk(a, b, ab, ba, q))
    && (forall q: nat :: ReturnOk(b, ba, q))
    && (forall e: nat :: Balanced(a, b, ab, ba, e))
    && (forall e: nat :: Backed(ImportRefs(a, e), ab, e))
    && (forall e: nat :: Announced(a, ba, e))
    && (forall id: nat :: EmbargoOk(a, b, ab, ba, id))
    && (forall k | 0 <= k < |ab| :: WellFormed(ab[k]))
  }

  // ------------------------------------------------- the asker sends a message

  lemma AskerSendsQuestion(a: Vat, a': Vat, b: Vat, ab: seq<Msg>, ba: seq<Msg>, m: Msg, q: nat)
    requires QuestionOk(a, b, ab, ba, q) && AskerSends(a, a', m)
    ensures QuestionOk(a', b, ab + [m], ba, q)
  {
    hide Safe, After, Sum, LastFinish, Legal, Awaiting, HasRef, Unreturned, Open, Uses, Caps;
    SafeSnoc(q, ab, m, Open(b, q));
    SumSnoc(ab, m, Asks(q));
    LastFinishSnoc(q, ab, m);
    if IsAsk(m, q) { NoReturns(ba, q, 0); }
  }

  /** Dropping a question that awaits its `Return` turns the references that return carries into ones to be
      released by the `Finish`. */
  lemma DroppedResults(a: Vat, b: Vat, ab: seq<Msg>, ba: seq<Msg>, q: nat, e: nat)
    requires LocalOk(b) && QuestionOk(a, b, ab, ba, q) && ReturnOk(b, ba, q) && HasRef(a, q)
    ensures Sum(ba, RetRefs(q, e)) ==
      if Sum(ab, Mentions(q)) == 0 && Awaiting(a, q) then OccursIn(OpenResults(b), q, e) else 0
  {
    if Sum(ba, Rets(q)) == 0 { NoReturns(ba, q, e); }
    AsksAreMentions(q, ab);
    if Sum(ab, Asks(q)) == 0 { AfterNoAsk(q, ab, Open(b, q)); }
  }

  lemma AskerSendsBalance(a: Vat, a': Vat, b: Vat, ab: seq<Msg>, ba: seq<Msg>, m: Msg, e: nat)
    requires LocalOk(b) && Balanced(a, b, ab, ba, e) && AskerSends(a, a', m)
    requires forall q: nat :: QuestionOk(a, b, ab, ba, q) && ReturnOk(b, ba, q)
    ensures Balanced(a', b, ab + [m], ba, e)
  {
    hide QuestionOk, ReturnOk, LocalOk;
    SumSnoc(ab, m, Releases(e));
    WillFinishSnoc(e, ab, m, OpenResults(b));
    if m.Finish? {
      var q := m.question;
      DroppedResults(a, b, ab, ba, q, e);
      HoldOneMore(ba, q, e, Held(a'));
      assert Held(a') + {q} == Held(a);
    } else if m.Bootstrap? || m.Call? {
      AskedFresh(a, b, ab, ba, m.question, e);
      HoldOneMore(ba, m.question, e, Held(a));
      assert Held(a) + {m.question} == Held(a');
    } else {
      assert Held(a) == Held(a');
    }
  }

  lemma AskerSendsAnnounced(a: Vat, a': Vat, b: Vat, ab: seq<Msg>, ba: seq<Msg>, m: Msg, e: nat)
    requires Announced(a, ba, e) && AskerSends(a, a', m)
    requires forall q: nat :: QuestionOk(a, b, ab, ba, q)
    ensures Announced(a', ba, e)
  {
    hide PromisesFirst;
    forall q | q in Held(a') ensures q in Held(a) || Sum(ba, Rets(q)) == 0 {
      assert QuestionOk(a, b, ab, ba, q);
    }
    PromisesFirstLess(e, ba, ImportRefs(a, e), Held(a), ImportRefs(a', e), Held(a'));
  }

  lemma AskedFresh(a: Vat, b: Vat, ab: seq<Msg>, ba: seq<Msg>, q: nat, e: nat)
    requires QuestionOk(a, b, ab, ba, q) && !Awaiting(a, q)
    ensures Sum(ba, RetRefs(q, e)) == 0
  {
    NoReturns(ba, q, e);
  }

  lemma BackedSnoc(refs: nat, ab: seq<Msg>, m: Msg, e: nat, now: nat)
    requires Backed(refs, ab, e) && now + Weigh(m, Releases(e)) == refs
    requires Uses(m, ImportedCap(e)) ==> now > 0
    ensures Backed(now, ab + [m], e)
  {
    hide Uses;
    forall k | 0 <= k < |ab| + 1 && Uses((ab + [m])[k], ImportedCap(e))
      ensures now > 0 || Sum((ab + [m])[k + 1..], Releases(e)) > 0
    {
      if k < |ab| {
        SumSnoc(ab[k + 1..], m, Releases(e));
        assert (ab + [m])[k + 1..] == ab[k + 1..] + [m];
      }
    }
  }

  lemma AskerSendsHalf(a: Vat, a': Vat, b: Vat, ab: seq<Msg>, ba: seq<Msg>, m: Msg)
    requires LocalOk(b) && Half(a, b, ab, ba) && AskerSends(a, a', m) && WellFormed(m)
    ensures Half(a', b, ab + [m], ba)
  {
    hide LocalOk, QuestionOk, Balanced, Backed, Announced, ReturnOk, Legal, WellFormed;
    forall q: nat ensures QuestionOk(a', b, ab + [m], ba, q) {
      AskerSendsQuestion(a, a', b, ab, ba, m, q);
    }
    forall e: nat
      ensures Balanced(a', b, ab + [m], ba, e) && Backed(ImportRefs(a', e), ab + [m], e) && Announced(a', ba, e)
    {
      AskerSendsBalance(a, a', b, ab, ba, m, e);
      AskerSendsAnnounced(a, a', b, ab, ba, m, e);
      BackedSnoc(ImportRefs(a, e), ab, m, e, ImportRefs(a', e));
    }
    forall id: nat ensures EmbargoOk(a', b, ab + [m], ba, id) {
      assert EmbargoOk(a, b, ab, ba, id);
      SumSnoc(ab, m, Loops(id));
    }
  }

  // ---------------------------------------------- the answerer sends a message

  lemma AnswererSendsQuestion(a: Vat, b: Vat, b': Vat, ab: seq<Msg>, ba: seq<Msg>, m: Msg, q: nat)
    requires QuestionOk(a, b, ab, ba, q) && AnswererSends(b, b', m)
    ensures QuestionOk(a, b', ab, ba + [m], q)
  {
    SumSnoc(ba, m, Rets(q));
    SumSnoc(ba, m, Cancels(q));
    if m == Return(q, Canceled) { AfterNoAsk(q, ab, false); }
  }

  lemma AnswererSendsReturn(a: Vat, b: Vat, b': Vat, ab: seq<Msg>, ba: seq<Msg>, m: Msg, q: nat)
    requires QuestionOk(a, b, ab, ba, q) && ReturnOk(b, ba, q) && AnswererSends(b, b', m)
    ensures ReturnOk(b', ba + [m], q)
  {
    SumSnoc(ba, m, Rets(q));
    if Open(b', q) && Sum(ba + [m], Rets(q)) > 0 {
      forall e: nat ensures Sum(ba + [m], RetRefs(q, e)) == Occurs(b'.answers[q].resultExports, e) {
        SumSnoc(ba, m, RetRefs(q, e));
        assert OpenResults(b')[q] == b'.answers[q].resultExports;
        if IsReturn(m, q) {
          NoReturns(ba, q, e);
        } else {
          assert OpenResults(b)[q] == b.answers[q].resultExports;
        }
      }
    }
  }

  lemma AnswererSendsBalance(a: Vat, b: Vat, b': Vat, ab: seq<Msg>, ba: seq<Msg>, m: Msg, e: nat)
    requires LocalOk(b) && Balanced(a, b, ab, ba, e) && AnswererSends(b, b', m)
    requires forall q: nat :: QuestionOk(a, b, ab, ba, q)
    ensures Balanced(a, b', ab, ba + [m], e)
  {
    SumSnoc(ba, m, Refs(e, Held(a)));
    if m.Return? && Open(b, m.answer) {
      var q := m.answer;
      assert QuestionOk(a, b, ab, ba, q) && Unreturned(b, q);
      assert OpenResults(b)[q] == [];
      AfterNoAsk(q, ab, true);
      WillFinishResults(e, ab, q, OpenResults(b')[q], OpenResults(b));
      assert OpenResults(b') == OpenResults(b)[q := OpenResults(b')[q]];
      assert q in Held(a) <==> HasRef(a, q);
      assert Occurs(OpenResults(b')[q], e) == CapRefs(Caps(m), e);
      if !HasRef(a, q) { assert LastFinish(q, ab).Some? && LastFinish(q, ab).value; }
    }
  }

  lemma AnswererSendsAnnounced(a: Vat, b: Vat, b': Vat, ab: seq<Msg>, ba: seq<Msg>, m: Msg, e: nat)
    requires Announced(a, ba, e) && Balanced(a, b, ab, ba, e) && AnswererSends(b, b', m)
    ensures Announced(a, ba + [m], e)
  {
    hide PromisesFirst, ResultsSent, Sum;
    PromisesFirstSnoc(e, ba, m, ImportRefs(a, e), Held(a));
  }

  lemma AnswererSendsHalf(a: Vat, b: Vat, b': Vat, ab: seq<Msg>, ba: seq<Msg>, m: Msg)
    requires LocalOk(b) && Half(a, b, ab, ba) && AnswererSends(b, b', m)
    ensures Half(a, b', ab, ba + [m])
  {
    hide LocalOk, QuestionOk, Balanced, Backed, Announced, ReturnOk, WellFormed, ResultsSent;
    forall q: nat ensures QuestionOk(a, b', ab, ba + [m], q) && ReturnOk(b', ba + [m], q) {
      AnswererSendsQuestion(a, b, b', ab, ba, m, q);
      AnswererSendsReturn(a, b, b', ab, ba, m, q);
    }
    forall e: nat ensures Balanced(a, b', ab, ba + [m], e) && Announced(a, ba + [m], e) {
      AnswererSendsBalance(a, b, b', ab, ba, m, e);
      AnswererSendsAnnounced(a, b, b', ab, ba, m, e);
    }
    forall id: nat ensures EmbargoOk(a, b', ab, ba + [m], id) {
      assert EmbargoOk(a, b, ab, ba, id);
      SumSnoc(ba, m, Echoes(id));
    }
  }

  // ------------------------------------------------- a message is delivered

  lemma AskerGetsHalf(a: Vat, a': Vat, b: Vat, ab: seq<Msg>, ba: seq<Msg>)
    requires ba != [] && Half(a, b, ab, ba) && AskerGets(a, a', ba[0])
    ensures Half(a', b, ab, ba[1..])
  {
    hide Open, WellFormed, Safe, After, Uses;
    forall q: nat ensures QuestionOk(a', b, ab, ba[1..], q) && ReturnOk(b, ba[1..], q) {
      assert QuestionOk(a, b, ab, ba, q) && ReturnOk(b, ba, q);
    }
    assert Held(a') == Held(a);
    forall e: nat
      ensures Balanced(a', b, ab, ba[1..], e) && Backed(ImportRefs(a', e), ab, e) && Announced(a', ba[1..], e)
    {
      assert Balanced(a, b, ab, ba, e) && Backed(ImportRefs(a, e), ab, e) && Announced(a, ba, e);
    }
    forall id: nat ensures EmbargoOk(a', b, ab, ba[1..], id) {
      assert EmbargoOk(a, b, ab, ba, id);
    }
  }

  lemma AnswererGetsHalf(a: Vat, b: Vat, b': Vat, ab: seq<Msg>, ba: seq<Msg>)
    requires ab != [] && Half(a, b, ab, ba) && AnswererGets(b, b', ab[0])
    ensures Half(a, b', ab[1..], ba)
  {
    hide Uses, WellFormed, Announced;
    forall q: nat ensures QuestionOk(a, b', ab[1..], ba, q) && ReturnOk(b', ba, q) {
      assert QuestionOk(a, b, ab, ba, q) && ReturnOk(b, ba, q);
      if Open(b', q) && Sum(ba, Rets(q)) > 0 {
        assert OpenResults(b')[q] == b'.answers[q].resultExports;
        assert OpenResults(b)[q] == b.answers[q].resultExports;
      }
    }
    forall e: nat ensures Balanced(a, b', ab[1..], ba, e) && Backed(ImportRefs(a, e), ab[1..], e) {
      assert Balanced(a, b, ab, ba, e) && Backed(ImportRefs(a, e), ab, e);
    }
    forall id: nat ensures EmbargoOk(a, b', ab[1..], ba, id) {
      assert EmbargoOk(a, b, ab, ba, id);
    }
  }

  // ----------------------------------------------------- what can be delivered

  lemma UsesReach(a: Vat, b: Vat, ab: seq<Msg>, ba: seq<Msg>, t: Target)
    requires LocalOk(b) && Half(a, b, ab, ba) && ab != [] && Uses(ab[0], t)
    ensures Reaches(b, t)
  {
    hide Uses, WellFormed, Announced, ReturnOk, EmbargoOk;
    match t
    case PromisedAnswer(q) => assert QuestionOk(a, b, ab, ba, q);
    case ImportedCap(e) => assert Balanced(a, b, ab, ba, e) && Backed(ImportRefs(a, e), ab, e);
  }

  lemma AskIsFresh(a: Vat, b: Vat, ab: seq<Msg>, ba: seq<Msg>, q: nat)
    requires LocalOk(b) && QuestionOk(a, b, ab, ba, q) && ab != [] && IsAsk(ab[0], q)
    ensures q !in b.answers
  {
  }

  /** The next message to `b` is one that it can be sent: what it names is there, a new question id is free, a
      `Return` is awaited, a release is covered. */
  lemma NextIsReady(a: Vat, b: Vat, ab: seq<Msg>, ba: seq<Msg>)
    requires LocalOk(b) && Half(a, b, ab, ba) && Half(b, a, ba, ab) && ab != []
    ensures Ready(b, ab[0])
  {
    hide LocalOk, Uses, Announced, Reaches, ReturnOk, Backed, PromiseIsFirst, WillFinish, NextResults;
    var m := ab[0];
    forall t: Target | Uses(m, t) ensures Reaches(b, t) { UsesReach(a, b, ab, ba, t); }
    forall e: nat ensures PromiseIsFirst(e, Caps(m), ImportRefs(b, e)) {
      assert Announced(b, ab, e);
      HeadIsFirst(b, ab, e);
    }
    match m {
      case Bootstrap(q) => assert QuestionOk(a, b, ab, ba, q); AskIsFresh(a, b, ab, ba, q);
      case Call(q, _, _) => assert QuestionOk(a, b, ab, ba, q); AskIsFresh(a, b, ab, ba, q);
      case Return(q, ret) => assert QuestionOk(b, a, ba, ab, q);
      case Finish(q, release) =>
        assert QuestionOk(a, b, ab, ba, q);
        if release {
          forall e: nat ensures Occurs(b.answers[q].resultExports, e) <= RefCount(b, e) {
            assert Balanced(a, b, ab, ba, e);
            FinishIsCovered(e, ab, OpenResults(b), q);
          }
        }
      case Release(e, count) => assert Balanced(a, b, ab, ba, e);
      case Disembargo(_, ReceiverLoopback(id)) => assert EmbargoOk(b, a, ba, ab, id);
      case _ =>
    }
  }

  lemma HeadIsFirst(b: Vat, ab: seq<Msg>, e: nat)
    requires Announced(b, ab, e) && ab != []
    ensures PromiseIsFirst(e, Caps(ab[0]), ImportRefs(b, e))
  {
  }

  lemma FinishIsCovered(e: nat, ab: seq<Msg>, results: map<nat, seq<nat>>, q: nat)
    requires ab != [] && ab[0] == Finish(q, true) && q in results
    ensures Occurs(results[q], e) <= WillFinish(e, ab, results)
  {
  }
}
