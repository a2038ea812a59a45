/** Pipelined calls find the answer they were made on: the one to the question that the caller held, not a later one
    that has taken over its id. */
module PipelinedCalls {
  import opened Rpc
  import opened Traffic
  import opened PeerView
  import opened VatSteps
  import opened TwoVats
  import opened RpcRuns
  import opened Working
  import opened Deliveries

  /** Nothing ahead of `m` in the queue asks question `q`. */
  predicate Clear(ms: seq<Msg>, m: Msg, q: nat) {
    exists p | 0 <= p < |ms| :: ms[p] == m && Sum(ms[..p], Asks(q)) == 0
  }

  lemma ClearNow(ms: seq<Msg>, m: Msg, q: nat)
    requires m in ms && Sum(ms, Asks(q)) == 0
    ensures Clear(ms, m, q)
  {
    var p :| 0 <= p < |ms| && ms[p] == m;
    SumOfFront(ms, p, Asks(q));
  }

  lemma ClearLast(ms: seq<Msg>, m: Msg, q: nat)
    requires Sum(ms, Asks(q)) == 0
    ensures Clear(ms + [m], m, q)
  {
    assert (ms + [m])[|ms|] == m && (ms + [m])[..|ms|] == ms;
  }

  lemma {:induction false} SumOfFront(ms: seq<Msg>, k: nat, w: Weight)
    requires k <= |ms|
    ensures Sum(ms[..k], w) <= Sum(ms, w)
  {
    if k == 0 {
    } else {
      SumOfFront(ms[1..], k - 1, w);
      assert ms[..k][1..] == ms[1..][..k - 1];
    }
  }

  /** It stays so while messages are added behind and taken from the front. */
  lemma ClearStays(s: System, t: System, m: Msg, q: nat)
    requires Step(s, t) && Clear(s.toRight, m, q) && m.Call? && m in t.toRight
    requires Sum(s.toRight, Asks(m.question)) <= 1
    ensures Clear(t.toRight, m, q)
  {
    hide LocalOk, Do, Handle;
    var event: Event :| LeftStep(s, event, t) || LeftStep(Mirror(s), event, Mirror(t));
    var p :| 0 <= p < |s.toRight| && s.toRight[p] == m && Sum(s.toRight[..p], Asks(q)) == 0;
    if LeftStep(s, event, t) {
      assert t.toRight[p] == m && t.toRight[..p] == s.toRight[..p];
    } else if event.Receive? {
      SumHas(t.toRight, m, Asks(m.question));
      assert p > 0;
      assert t.toRight[p - 1] == m && s.toRight[..p][1..] == t.toRight[..p - 1];
    }
  }

  /** A message that uses an answer, with no new question of that id ahead of it, finds the answer open now. */
  lemma ClearIsOpen(s: System, m: Msg, q: nat)
    requires Inv(s) && Clear(s.toRight, m, q) && Uses(m, PromisedAnswer(q))
    ensures Open(s.right, q)
  {
    var p :| 0 <= p < |s.toRight| && s.toRight[p] == m && Sum(s.toRight[..p], Asks(q)) == 0;
    assert QuestionOk(s.left, s.right, s.toRight, s.toLeft, q);
    SafeUse(q, s.toRight, p, Open(s.right, q));
  }

  lemma {:induction false} SafeUse(q: nat, ms: seq<Msg>, p: nat, open: bool)
    requires p < |ms| && Safe(q, ms, open) && Uses(ms[p], PromisedAnswer(q)) && Sum(ms[..p], Asks(q)) == 0
    ensures open
  {
    if p == 0 {
    } else {
      assert ms[..p][1..] == ms[1..][..p - 1];
      SafeUse(q, ms[1..], p - 1, Next(q, ms[0], open));
    }
  }

  /** A question that is held, and not being asked any more, is open at the peer; and it is not asked again. */
  lemma HeldIsOpen(s: System, q: nat)
    requires Inv(s) && HasRef(s.left, q) && Sum(s.toRight, Asks(q)) == 0
    ensures Open(s.right, q)
  {
    assert QuestionOk(s.left, s.right, s.toRight, s.toLeft, q);
    AfterNoAsk(q, s.toRight, Open(s.right, q));
  }

  lemma NotAskedAgain(s: System, t: System, q: nat)
    requires Inv(s) && Inv(t) && Step(s, t) && HasRef(s.left, q) && Sum(s.toRight, Asks(q)) == 0
    ensures Sum(t.toRight, Asks(q)) == 0
  {
    hide Inv, LocalOk, Do, Handle, HasRef;
    var event: Event :| LeftStep(s, event, t) || LeftStep(Mirror(s), event, Mirror(t));
    if LeftStep(s, event, t) {
      var out := t.toRight[|s.toRight|..];
      assert t.toRight == s.toRight + out;
      StepAsksFree(s, event, t, q);
      if out != [] {
        assert out == [out[0]];
        SumSnoc(s.toRight, out[0], Asks(q));
      } else {
        assert t.toRight == s.toRight;
      }
    } else if event.Receive? {
      assert Sum(s.toRight, Asks(q)) == Weigh(s.toRight[0], Asks(q)) + Sum(t.toRight, Asks(q));
    }
  }

  /** A vat asks only under an id whose question it does not hold. */
  lemma StepAsksFree(s: System, event: Event, t: System, q: nat)
    requires Inv(s) && LeftStep(s, event, t) && HasRef(s.left, q)
    ensures var out := t.toRight[|s.toRight|..]; |out| <= 1 && (out != [] ==> !IsAsk(out[0], q))
  {
    hide Inv, Half, LocalOk, Handle, Do, Ready, HasRef;
    InvParts(s);
    match event
    case Act(a) =>
      DoSends(s.left, a);
      assert AskerSends(s.left, Do(s.left, a).0, Do(s.left, a).1);
    case Receive(called, leads) =>
      NextIsReady(s.right, s.left, s.toLeft, s.toRight);
      var mid := HandleGets(s.left, s.toLeft[0], called, leads);
      var r := Handle(s.left, s.toLeft[0], called, leads);
      assert AskerGets(s.left, mid, s.toLeft[0]);
      if r.out != [] { assert AskerSends(mid, r.vat, r.out[0]); }
  }

  // ------------------------------------------------------------------ runs

  /** Question `q` is taken in in step `a`. It is held until `m`, a call that uses its answer, is under way, which is so
      from state `c` on, and `m` is under way up to state `n`. */
  ghost predicate UsedWhileHeld(states: seq<System>, a: nat, c: nat, n: nat, q: nat, m: Msg) {
    && Run(states) && a < c <= n < |states|
    && states[a].toRight != [] && IsAsk(states[a].toRight[0], q) && states[a + 1].toRight == states[a].toRight[1..]
    && (forall x | a < x < c :: HasRef(states[x].left, q))
    && m.Call? && Uses(m, PromisedAnswer(q)) && (forall x | c <= x <= n :: m in states[x].toRight)
    && (c == a + 1 || states[c].toRight == states[c - 1].toRight + [m])
  }

  lemma {:induction false} NotAsked(states: seq<System>, a: nat, c: nat, n: nat, q: nat, m: Msg, x: nat)
    requires UsedWhileHeld(states, a, c, n, q, m) && a < x && (x < c || x == a + 1)
    ensures Sum(states[x].toRight, Asks(q)) == 0
    decreases x
  {
    hide Step, Init, Inv, HasRef, Uses;
    if x == a + 1 {
      OnlyOne(states, a, q);
    } else {
      NotAsked(states, a, c, n, q, m, x - 1);
      RunInv(states, x - 1);
      RunInv(states, x);
      NotAskedAgain(states[x - 1], states[x], q);
    }
  }

  lemma {:induction false} ClearUnderWay(states: seq<System>, a: nat, c: nat, n: nat, q: nat, m: Msg, x: nat)
    requires UsedWhileHeld(states, a, c, n, q, m) && c <= x <= n
    ensures Clear(states[x].toRight, m, q)
    decreases x
  {
    hide Step, Init, HasRef, Uses, Clear;
    if x == c {
      if c == a + 1 {
        NotAsked(states, a, c, n, q, m, c);
        ClearNow(states[c].toRight, m, q);
      } else {
        NotAsked(states, a, c, n, q, m, c - 1);
        ClearLast(states[c - 1].toRight, m, q);
      }
    } else {
      ClearUnderWay(states, a, c, n, q, m, x - 1);
      OnlyOne(states, x - 1, m.question);
      ClearStays(states[x - 1], states[x], m, q);
    }
  }

  /** The answer stays open until the call that uses it is taken in. */
  lemma StaysOpen(states: seq<System>, a: nat, c: nat, n: nat, q: nat, m: Msg, x: nat)
    requires UsedWhileHeld(states, a, c, n, q, m) && a < x <= n
    ensures Open(states[x].right, q)
  {
    hide Run, Inv, HasRef, Uses, Clear;
    RunInv(states, x);
    if x < c {
      NotAsked(states, a, c, n, q, m, x);
      HeldIsOpen(states[x], q);
    } else {
      ClearUnderWay(states, a, c, n, q, m, x);
      ClearIsOpen(states[x], m, q);
    }
  }

  /** A pipelined call finds the answer to the question that its caller held: while it is on its way that answer stays
      open, and as long as there is work on it, it is the work that the question started. */
  lemma {:induction false} PipelinedMeetsAnswer(states: seq<System>, a: nat, c: nat, n: nat, q: nat, m: Msg, x: nat)
    requires UsedWhileHeld(states, a, c, n, q, m) && a < x <= n
    ensures Open(states[x].right, q)
    ensures q in states[x].right.running ==> StillWorks(states[a + 1].right, states[x].right, q)
    decreases x
  {
    hide Step, Init, Inv, HasRef, Uses;
    StaysOpen(states, a, c, n, q, m, x);
    if x == a + 1 {
    } else {
      PipelinedMeetsAnswer(states, a, c, n, q, m, x - 1);
      if q in states[x].right.running { WorkIsOld(states[x - 1], states[x], q); }
    }
  }

  /** Work on an answer that is there already is not new. */
  lemma WorkIsOld(s: System, t: System, q: nat)
    requires Step(s, t) && q in s.right.answers && q in t.right.running
    ensures StillWorks(s.right, t.right, q)
  {
    hide LocalOk, Do, Handle;
    var event: Event :| LeftStep(s, event, t) || LeftStep(Mirror(s), event, Mirror(t));
    if !LeftStep(s, event, t) {
      match event
      case Act(a) => DoWork(s.right, a);
      case Receive(called, leads) =>
        HandleWork(s.right, s.toRight[0], called, leads);
        CallIsNew(s.right, s.toRight[0], called, leads);
    }
  }

  lemma CallIsNew(v: Vat, m: Msg, called: bool, leads: Hook)
    requires LocalOk(v) && Handle(v, m, called, leads).Ok?
    ensures m.Call? ==> m.question !in v.answers
  {
    if m.Call? { ReceiveCapsOk(v, m.caps); }
  }
}
