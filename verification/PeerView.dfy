/** What one vat's own steps look like from the other end of the connection, message by message. */
module PeerView {
  import opened IdTable
  import opened Rpc
  import opened Traffic

  predicate Open(v: Vat, q: nat) {
    q in v.answers && !v.answers[q].finished
  }

  predicate Unreturned(v: Vat, q: nat) {
    q in v.answers && !v.answers[q].returnSent
  }

  function OpenResults(v: Vat): map<nat, seq<nat>> {
    map q | q in v.answers && !v.answers[q].finished :: v.answers[q].resultExports
  }

  function Held(v: Vat): set<nat> {
    set q: nat | q < |v.questions| && HasRef(v, q)
  }

  function Tasks(loopbacks: seq<Loopback>, id: nat): nat {
    if loopbacks == [] then 0
    else Tasks(loopbacks[..|loopbacks| - 1], id) + One(loopbacks[|loopbacks| - 1].embargo == id)
  }

  /** What sending `m` may do to a vat in its role as asker and importer. */
  ghost predicate AskerSends(v: Vat, w: Vat, m: Msg) {
    && (forall q: nat :: Legal(q, m, HasRef(v, q)) && HasRef(w, q) == Next(q, m, HasRef(v, q)))
    && (forall q: nat :: One(Awaiting(w, q)) == One(Awaiting(v, q)) + Weigh(m, Asks(q)))
    && (m.Finish? ==> m.releaseResultCaps == Awaiting(v, m.question))
    && (forall e: nat :: ImportRefs(w, e) + Weigh(m, Releases(e)) == ImportRefs(v, e))
    && (forall e: nat :: Uses(m, ImportedCap(e)) ==> ImportRefs(v, e) > 0)
    && (forall id: nat :: One(Has(w.embargoes, id)) == One(Has(v.embargoes, id)) + Weigh(m, Loops(id)))
  }

  /** What sending `m` may do to a vat in its role as answerer and exporter. */
  ghost predicate AnswererSends(v: Vat, w: Vat, m: Msg) {
    && (forall q: nat :: Open(w, q) == Open(v, q))
    && (forall q: nat :: One(Unreturned(w, q)) + Weigh(m, Rets(q)) == One(Unreturned(v, q)))
    && (forall q: nat :: m == Return(q, Canceled) ==> !Open(v, q))
    && ResultsSent(OpenResults(v), OpenResults(w), m)
    && (forall e: nat :: RefCount(w, e) == RefCount(v, e) + CapRefs(Caps(m), e))
    && (forall e: nat :: PromiseIsFirst(e, Caps(m), RefCount(v, e)))
    && (forall id: nat :: Tasks(w.loopbacks, id) + Weigh(m, Echoes(id)) == Tasks(v.loopbacks, id))
  }

  /** An open answer that returns takes note of just what the `Return` carries; a canceled one carries
      nothing. */
  ghost predicate ResultsSent(was: map<nat, seq<nat>>, now: map<nat, seq<nat>>, m: Msg) {
    if !m.Return? then now == was
    else if m.answer !in was then now == was && Caps(m) == []
    else
      && m.answer in now && now == was[m.answer := now[m.answer]]
      && forall e: nat :: Occurs(now[m.answer], e) == CapRefs(Caps(m), e)
  }

  ghost predicate AskerGets(v: Vat, w: Vat, m: Msg) {
    && (forall q: nat :: HasRef(w, q) == HasRef(v, q))
    && (forall q: nat :: One(Awaiting(w, q)) + Weigh(m, Rets(q)) == One(Awaiting(v, q)))
    && (forall e: nat :: ImportRefs(w, e) == ImportRefs(v, e) + Weigh(m, Refs(e, Held(v))))
    && (forall id: nat :: One(Has(w.embargoes, id)) + Weigh(m, Echoes(id)) == One(Has(v.embargoes, id)))
  }

  ghost predicate AnswererGets(v: Vat, w: Vat, m: Msg) {
    && (forall q: nat :: Open(w, q) == Next(q, m, Open(v, q)))
    && (forall q: nat :: One(Unreturned(w, q)) == One(Unreturned(v, q)) + Weigh(m, Asks(q)))
    && OpenResults(w) == NextResults(m, OpenResults(v))
    && (forall e: nat :: RefCount(w, e) + Weigh(m, Releases(e)) + FinishRefs(e, m, OpenResults(v)) == RefCount(v, e))
    && (forall id: nat :: Tasks(w.loopbacks, id) == Tasks(v.loopbacks, id) + Weigh(m, Loops(id)))
  }

  /** A step by which a vat sends `m`. */
  ghost predicate Sends(v: Vat, w: Vat, m: Msg) {
    LocalOk(w) && WellFormed(m) && AskerSends(v, w, m) && AnswererSends(v, w, m)
  }

  /** A step by which a vat takes in `m`. */
  ghost predicate Gets(v: Vat, w: Vat, m: Msg) {
    LocalOk(w) && AskerGets(v, w, m) && AnswererGets(v, w, m)
  }

  /** What a target names is there: a live export, or an answer that still has its pipeline. */
  predicate Reaches(v: Vat, t: Target) {
    match t
    case ImportedCap(e) => Has(v.exports, e)
    case PromisedAnswer(q) => q in v.answers && v.answers[q].pipeline
  }

  /** A message that this vat can be sent. */
  ghost predicate Ready(v: Vat, m: Msg) {
    && WellFormed(m)
    && (forall t: Target :: Uses(m, t) ==> Reaches(v, t))
    && (forall e: nat :: PromiseIsFirst(e, Caps(m), ImportRefs(v, e)))
    && match m
       case Bootstrap(q) => q !in v.answers
       case Call(q, _, _) => q !in v.answers
       case Return(q, ret) => Awaiting(v, q) && (ret.Canceled? ==> !HasRef(v, q))
       case Finish(q, release) =>
         Open(v, q) && (release ==> forall e: nat :: Occurs(v.answers[q].resultExports, e) <= RefCount(v, e))
       case Release(e, count) => count <= RefCount(v, e)
       case Disembargo(_, ReceiverLoopback(id)) => Has(v.embargoes, id)
       case _ => true
  }
}
