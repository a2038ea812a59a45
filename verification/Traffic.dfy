/** What the messages in flight in one direction amount to: counts over a queue of messages, the order of the
    messages about one question, and the references that `Finish` messages are going to release. */
module Traffic {
  import opened Options
  import opened Rpc

  // ------------------------------------------------------------ one message

  predicate IsAsk(m: Msg, q: nat) {
    (m.Bootstrap? || m.Call?) && m.question == q
  }

  predicate IsFinish(m: Msg, q: nat) {
    m.Finish? && m.question == q
  }

  predicate IsReturn(m: Msg, q: nat) {
    m.Return? && m.answer == q
  }

  /** The capability table of a message. */
  function Caps(m: Msg): seq<Desc> {
    match m
    case Call(_, _, caps) => caps
    case Return(_, Results(caps)) => caps
    case Resolve(_, ToCap(desc)) => [desc]
    case _ => []
  }

  /** How a descriptor names something that its receiver hosts. */
  function DescOf(t: Target): Desc {
    match t
    case ImportedCap(e) => ReceiverHosted(e)
    case PromisedAnswer(q) => ReceiverAnswer(q)
  }

  /** The message names `t`, as its target or in its capability table. */
  predicate Uses(m: Msg, t: Target) {
    ((m.Call? || m.Disembargo?) && m.target == t) || DescOf(t) in Caps(m)
  }

  predicate WellFormed(m: Msg) {
    m != Unimplemented && (m.Resolve? ==> m.resolution != ToCap(NoCap)) && (m.Release? ==> m.count > 0)
  }

  // ----------------------------------------------------------------- counts

  function One(b: bool): nat {
    if b then 1 else 0
  }

  /** Something that can be counted in a queue. `Refs` counts the references to an export that the receiver,
      whose referenced questions are `held`, is going to import. */
  datatype Weight =
    | Asks(question: nat)
    | Mentions(question: nat)
    | Rets(question: nat)
    | Cancels(question: nat)
    | RetRefs(question: nat, id: nat)
    | Refs(id: nat, held: set<nat>)
    | Releases(id: nat)
    | Loops(embargo: nat)
    | Echoes(embargo: nat)

  function Weigh(m: Msg, w: Weight): nat {
    match w
    case Asks(q) => One(IsAsk(m, q))
    case Mentions(q) => One(IsAsk(m, q) || IsFinish(m, q))
    case Rets(q) => One(IsReturn(m, q))
    case Cancels(q) => One(m == Return(q, Canceled))
    case RetRefs(q, e) => if IsReturn(m, q) then CapRefs(Caps(m), e) else 0
    case Refs(e, held) => if m.Return? && m.answer !in held then 0 else CapRefs(Caps(m), e)
    case Releases(e) => if m.Release? && m.id == e then m.count else 0
    case Loops(id) => One(m.Disembargo? && m.context == SenderLoopback(id))
    case Echoes(id) => One(m.Disembargo? && m.context == ReceiverLoopback(id))
  }

  function Sum(ms: seq<Msg>, w: Weight): nat {
    if ms == [] then 0 else Weigh(ms[0], w) + Sum(ms[1..], w)
  }

  lemma {:induction false} SumSnoc(ms: seq<Msg>, m: Msg, w: Weight)
    ensures Sum(ms + [m], w) == Sum(ms, w) + Weigh(m, w)
  {
    if ms == [] {
      assert (ms + [m])[1..] == [];
    } else {
      assert (ms + [m])[1..] == ms[1..] + [m];
      SumSnoc(ms[1..], m, w);
    }
  }

  /** Only a `Return` cancels or carries results. */
  lemma {:induction false} NoReturns(ms: seq<Msg>, q: nat, e: nat)
    requires Sum(ms, Rets(q)) == 0
    ensures Sum(ms, Cancels(q)) == 0 && Sum(ms, RetRefs(q, e)) == 0
  {
    if ms == [] {
    } else {
      NoReturns(ms[1..], q, e);
    }
  }

  /** Holding one more question means importing what is returned to it. */
  lemma {:induction false} HoldOneMore(ms: seq<Msg>, q: nat, e: nat, held: set<nat>)
    requires q !in held
    ensures Sum(ms, Refs(e, held + {q})) == Sum(ms, Refs(e, held)) + Sum(ms, RetRefs(q, e))
  {
    if ms == [] {
    } else {
      HoldOneMore(ms[1..], q, e, held);
    }
  }

  // ------------------------------------------------------- the first reference

  /** A `senderPromise` for `e` in a capability table comes before any other reference to `e`, given how many
      there have been. */
  predicate PromiseIsFirst(e: nat, caps: seq<Desc>, refs: nat) {
    forall i | 0 <= i < |caps| && caps[i] == SenderPromise(e) :: refs + CapRefs(caps[..i], e) == 0
  }

  lemma PromiseIsFirstSnoc(e: nat, caps: seq<Desc>, desc: Desc, refs: nat)
    requires PromiseIsFirst(e, caps, refs)
    requires desc == SenderPromise(e) ==> refs + CapRefs(caps, e) == 0
    ensures PromiseIsFirst(e, caps + [desc], refs)
  {
    assert (caps + [desc])[..|caps|] == caps;
    assert forall i | 0 <= i < |caps| :: (caps + [desc])[..i] == caps[..i];
  }

  predicate PromisesFirst(e: nat, ms: seq<Msg>, refs: nat, held: set<nat>) {
    ms == [] ||
    (PromiseIsFirst(e, Caps(ms[0]), refs) && PromisesFirst(e, ms[1..], refs + Weigh(ms[0], Refs(e, held)), held))
  }

  lemma {:induction false} PromisesFirstSnoc(e: nat, ms: seq<Msg>, m: Msg, refs: nat, held: set<nat>)
    requires PromisesFirst(e, ms, refs, held)
    requires PromiseIsFirst(e, Caps(m), refs + Sum(ms, Refs(e, held)))
    ensures PromisesFirst(e, ms + [m], refs, held)
  {
    if ms == [] {
      assert (ms + [m])[1..] == [];
    } else {
      assert (ms + [m])[1..] == ms[1..] + [m];
      PromisesFirstSnoc(e, ms[1..], m, refs + Weigh(ms[0], Refs(e, held)), held);
    }
  }

  /** It stays so when the receiver holds less, or holds a question for which nothing is being returned. */
  lemma {:induction false} PromisesFirstLess(
      e: nat, ms: seq<Msg>, refs: nat, held: set<nat>, refs': nat, held': set<nat>)
    requires PromisesFirst(e, ms, refs, held) && refs' <= refs
    requires forall q | q in held' :: q in held || Sum(ms, Rets(q)) == 0
    ensures PromisesFirst(e, ms, refs', held')
  {
    if ms == [] {
    } else {
      assert forall q: nat :: Sum(ms, Rets(q)) >= Sum(ms[1..], Rets(q));
      assert ms[0].Return? && ms[0].answer in held' ==> ms[0].answer in held by {
        if ms[0].Return? { assert Sum(ms, Rets(ms[0].answer)) > 0; }
      }
      PromisesFirstLess(e, ms[1..], refs + Weigh(ms[0], Refs(e, held)), held,
                        refs' + Weigh(ms[0], Refs(e, held')), held');
    }
  }

  // --------------------------------------------------- the life of a question

  /** Whether a message may come when question `q` is open, or not, at its receiver. */
  predicate Legal(q: nat, m: Msg, open: bool) {
    && (Uses(m, PromisedAnswer(q)) ==> open)
    && (IsFinish(m, q) ==> open)
    && (IsAsk(m, q) ==> !open)
  }

  function Next(q: nat, m: Msg, open: bool): bool {
    if IsAsk(m, q) then true else if IsFinish(m, q) then false else open
  }

  /** Every message in the queue will be legal when it arrives. */
  predicate Safe(q: nat, ms: seq<Msg>, open: bool) {
    ms == [] || (Legal(q, ms[0], open) && Safe(q, ms[1..], Next(q, ms[0], open)))
  }

  function After(q: nat, ms: seq<Msg>, open: bool): bool {
    if ms == [] then open else After(q, ms[1..], Next(q, ms[0], open))
  }

  lemma {:induction false} SafeSnoc(q: nat, ms: seq<Msg>, m: Msg, open: bool)
    ensures Safe(q, ms + [m], open) <==> Safe(q, ms, open) && Legal(q, m, After(q, ms, open))
    ensures After(q, ms + [m], open) == Next(q, m, After(q, ms, open))
  {
    if ms == [] {
      assert (ms + [m])[1..] == [];
    } else {
      assert (ms + [m])[1..] == ms[1..] + [m];
      SafeSnoc(q, ms[1..], m, Next(q, ms[0], open));
    }
  }

  /** The flag of the last `Finish` of a question. */
  function LastFinish(q: nat, ms: seq<Msg>): Option<bool> {
    if ms == [] then None
    else
      var later := LastFinish(q, ms[1..]);
      if later.Some? then later else if IsFinish(ms[0], q) then Some(ms[0].releaseResultCaps) else None
  }

  lemma {:induction false} LastFinishSnoc(q: nat, ms: seq<Msg>, m: Msg)
    ensures LastFinish(q, ms + [m]) == if IsFinish(m, q) then Some(m.releaseResultCaps) else LastFinish(q, ms)
  {
    if ms == [] {
      assert (ms + [m])[1..] == [];
    } else {
      assert (ms + [m])[1..] == ms[1..] + [m];
      LastFinishSnoc(q, ms[1..], m);
    }
  }

  /** With no new question of that id on its way, a question stays open exactly until its one `Finish`. */
  lemma {:induction false} AfterNoAsk(q: nat, ms: seq<Msg>, open: bool)
    requires Sum(ms, Asks(q)) == 0 && Safe(q, ms, open)
    ensures After(q, ms, open) == (open && LastFinish(q, ms).None?)
    ensures !open ==> LastFinish(q, ms).None?
    ensures LastFinish(q, ms).None? <==> Sum(ms, Mentions(q)) == 0
  {
    if ms == [] {
    } else {
      AfterNoAsk(q, ms[1..], Next(q, ms[0], open));
    }
  }

  lemma {:induction false} AsksAreMentions(q: nat, ms: seq<Msg>)
    ensures Sum(ms, Asks(q)) <= Sum(ms, Mentions(q))
  {
    if ms == [] {
    } else {
      AsksAreMentions(q, ms[1..]);
    }
  }

  // ----------------------------------------- what finishing is going to release

  /** The open answers of a vat, with what they have exported, after a message. */
  function NextResults(m: Msg, results: map<nat, seq<nat>>): map<nat, seq<nat>> {
    match m
    case Bootstrap(q) => results[q := []]
    case Call(q, _, _) => results[q := []]
    case Finish(q, _) => results - {q}
    case _ => results
  }

  function OccursIn(results: map<nat, seq<nat>>, q: nat, e: nat): nat {
    if q in results then Occurs(results[q], e) else 0
  }

  /** The references to `e` that a message releases through the results of an answer. */
  function FinishRefs(e: nat, m: Msg, results: map<nat, seq<nat>>): nat {
    if m.Finish? && m.releaseResultCaps then OccursIn(results, m.question, e) else 0
  }

  function WillFinish(e: nat, ms: seq<Msg>, results: map<nat, seq<nat>>): nat {
    if ms == [] then 0
    else FinishRefs(e, ms[0], results) + WillFinish(e, ms[1..], NextResults(ms[0], results))
  }

  lemma {:induction false} WillFinishSnoc(e: nat, ms: seq<Msg>, m: Msg, results: map<nat, seq<nat>>)
    ensures WillFinish(e, ms + [m], results) ==
      WillFinish(e, ms, results) +
      if m.Finish? && Sum(ms, Mentions(m.question)) == 0 then FinishRefs(e, m, results)
      else 0
  {
    if ms == [] {
      assert (ms + [m])[1..] == [];
    } else {
      assert (ms + [m])[1..] == ms[1..] + [m];
      WillFinishSnoc(e, ms[1..], m, NextResults(ms[0], results));
    }
  }

  /** When an open answer gets its results, the `Finish` already on its way to it, if there is one, is going
      to release them just if its flag says so. */
  lemma {:induction false} WillFinishResults(e: nat, ms: seq<Msg>, q: nat, ids: seq<nat>, results: map<nat, seq<nat>>)
    requires Sum(ms, Asks(q)) == 0 && Safe(q, ms, true)
    requires q in results && results[q] == []
    ensures WillFinish(e, ms, results[q := ids]) ==
      WillFinish(e, ms, results) + if LastFinish(q, ms) == Some(true) then Occurs(ids, e) else 0
  {
    if ms == [] {
    } else {
      if IsFinish(ms[0], q) {
        AfterNoAsk(q, ms[1..], false);
        assert results[q := ids] - {q} == results - {q};
      } else {
        assert NextResults(ms[0], results[q := ids]) == NextResults(ms[0], results)[q := ids];
        WillFinishResults(e, ms[1..], q, ids, NextResults(ms[0], results));
      }
    }
  }
}
