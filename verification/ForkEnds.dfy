/** How a fork ends: the handler returns once every branch has reported, and which of the
    live siblings are left without a CANCEL. */
module ForkEnds {
  import opened Text
  import opened Fork
  import opened ForkMachine

  // ---------------------------------------------------------------------
  // The handler returns
  // ---------------------------------------------------------------------

  predicate AllReported(f: Fanout) { forall i :: 0 <= i < |f.branches| ==> HasReported(f.branches[i]) }

  /** The handler's own steps. */
  predicate HandlerEvent(e: Event) { e.Take? || e.GiveUp? || e.Record? || e.AnswerUpstream? || e.CancelNext? }

  /** How many of them are left at most. */
  function Left(f: Fanout): nat {
    match f.pc
    case Looping => |f.queue| + |f.branches| + 4
    case Won(_, _) => |f.branches| + 3
    case Recorded(_, _) => |f.branches| + 2
    case Returned => 0
    case _ => if |f.views| <= |f.branches| then |f.branches| - |f.views| + 1 else 1
  }

  /** The one that comes next. */
  function NextStep(f: Fanout): Event
    requires !f.pc.Returned?
  {
    match f.pc
    case Looping => if f.loop.pending > 0 then Take else GiveUp
    case Won(_, _) => Record
    case Recorded(_, _) => AnswerUpstream
    case _ => CancelNext
  }

  lemma NextIsEnabled(f: Fanout)
    requires Inv(f) && AllReported(f) && !f.pc.Returned?
    ensures HandlerEvent(NextStep(f)) && Enabled(f, NextStep(f))
    ensures var f' := Step(f, NextStep(f)); f'.branches == f.branches && Left(f') < Left(f)
  {
    CountIsBounded(f.branches);
    assert f.queue == [] ==> Terminals(f.queue) == 0;
  }

  lemma {:induction false} HandlerFinishes(f: Fanout) returns (es: seq<Event>)
    requires Inv(f) && AllReported(f)
    ensures ValidRun(f, es) && Run(f, es).pc.Returned? && |es| <= Left(f) && forall e :: e in es ==> HandlerEvent(e)
    decreases Left(f)
  {
    if f.pc.Returned? {
      es := [];
    } else {
      NextIsEnabled(f);
      StepKeepsInv(f, NextStep(f));
      var rest := HandlerFinishes(Step(f, NextStep(f)));
      es := [NextStep(f)] + rest;
      assert es[1..] == rest;
    }
  }

  /** Steps of the handler that take f to its return, no more than `bound` of them. */
  ghost predicate ReturnsWithin(f: Fanout, bound: nat) {
    exists es :: ValidRun(f, es) && Run(f, es).pc.Returned? && |es| <= bound && forall e :: e in es ==> HandlerEvent(e)
  }

  /** Whatever has happened so far, once every branch has reported the handler alone can go on to its
      return, in a number of steps bounded by the reports still queued and the branches; and while it
      has not returned, it always has a step, which brings it nearer. */
  lemma HandlerReturns(n: nat, es: seq<Event>)
    requires n > 0 && ValidRun(Init(n), es) && AllReported(Run(Init(n), es))
    ensures var f := Run(Init(n), es);
            && ReturnsWithin(f, |f.queue| + n + 4)
            && (!f.pc.Returned? ==>
                  Enabled(f, NextStep(f)) && Left(Step(f, NextStep(f))) < Left(f) <= |f.queue| + n + 4)
  {
    InitInv(n);
    RunKeepsInv(Init(n), es);
    var f := Run(Init(n), es);
    var rest := HandlerFinishes(f);
    assert |rest| <= |f.queue| + n + 4;
    if !f.pc.Returned? {
      NextIsEnabled(f);
    }
  }

  // ---------------------------------------------------------------------
  // Siblings without a CANCEL
  // ---------------------------------------------------------------------

  /** A branch found in state a can be in state b later. */
  predicate Precedes(a: Branch, b: Branch) {
    || a == b || a.Starting?
    || (a.Sent? && !b.Starting? && !b.Unsent?)
    || (a.Running? && !NotStored(b))
    || (a.Reported? && b.Final?)
  }

  predicate ViewsPrecede(f: Fanout) {
    |f.views| <= |f.branches| && forall i :: 0 <= i < |f.views| ==> Precedes(f.views[i], f.branches[i])
  }

  lemma StepKeepsViews(f: Fanout, e: Event)
    requires ViewsPrecede(f) && Enabled(f, e)
    ensures ViewsPrecede(Step(f, e))
  {
    if BranchEvent(e) {
      StepIsBranchMove(f, e);
      assert Precedes(f.branches[e.i], BranchMove(e).0);
    }
  }

  lemma {:induction false} RunKeepsViews(f: Fanout, es: seq<Event>)
    requires ViewsPrecede(f) && ValidRun(f, es)
    ensures ViewsPrecede(Run(f, es))
    decreases |es|
  {
    if es != [] {
      StepKeepsViews(f, es[0]);
      RunKeepsViews(Step(f, es[0]), es[1..]);
    }
  }

  /** The INVITE is out, and no final flag set. */
  predicate Ringing(b: Branch) { b.Sent? || Cancellable(b) }

  /** Once a decided fork has returned, a sibling whose INVITE is out and that has no final flag was
      sent a CANCEL exactly when its goroutine had stored `branches[i]` by its turn: neither an
      INVITE sent later nor one just sent is cancelled. */
  lemma RingingSiblingIsCancelledIff(n: nat, es: seq<Event>)
    requires n > 0 && ValidRun(Init(n), es)
    requires var f := Run(Init(n), es); f.pc.Returned? && !NoneDecides(f.seen)
    ensures var f := Run(Init(n), es);
            exists who: nat, m ::
              && DecidedBy(f.seen, who, m) && |f.views| == |f.branches| == n
              && forall i: nat :: i < n && i != who && Ringing(f.branches[i]) ==>
                                    (i in f.cancels <==> !f.views[i].Starting? && !f.views[i].Sent?)
  {
    DecidingPassIsExact(n, es);
    RunKeepsViews(Init(n), es);
    var f := Run(Init(n), es);
    var who: nat, m :| && DecidedBy(f.seen, who, m) && who < n == |f.branches| && |f.views| == n
                       && forall i: nat :: i in f.cancels <==> i < n && i != who && Cancellable(f.views[i]);
    forall i: nat | i < n && i != who && Ringing(f.branches[i])
      ensures i in f.cancels <==> !f.views[i].Starting? && !f.views[i].Sent?
    {
      assert Precedes(f.views[i], f.branches[i]);
    }
  }

  lemma {:induction false} Extend(f: Fanout, es: seq<Event>, e: Event)
    requires ValidRun(f, es) && Enabled(Run(f, es), e)
    ensures ValidRun(f, es + [e]) && Run(f, es + [e]) == Step(Run(f, es), e)
    decreases |es|
  {
    if es == [] {
      assert es + [e] == [e] && [e][1..] == [];
    } else {
      assert (es + [e])[1..] == es[1..] + [e];
      Extend(Step(f, es[0]), es[1..], e);
    }
  }

  const OK := Message(200, "")

  lemma {:induction false} Three(f: Fanout, es: seq<Event>, a: Event, b: Event, c: Event)
    requires ValidRun(f, es) && Enabled(Run(f, es), a) && Enabled(Step(Run(f, es), a), b)
    requires Enabled(Step(Step(Run(f, es), a), b), c)
    ensures ValidRun(f, es + [a, b, c]) && Run(f, es + [a, b, c]) == Step(Step(Step(Run(f, es), a), b), c)
  {
    Extend(f, es, a);
    Extend(f, es + [a], b);
    Extend(f, es + [a] + [b], c);
    assert es + [a] + [b] + [c] == es + [a, b, c];
  }

  const ANSWER: seq<Event> := [Send(0), Store(0), Receive(0, OK)]
  const DECIDE: seq<Event> := [Take, Record, AnswerUpstream]
  const PASS: seq<Event> := [CancelNext, Send(1), CancelNext]
  const RETURN: seq<Event> := [Store(1), CancelNext]

  lemma {:induction false} AnswerRuns()
    ensures ValidRun(Init(2), ANSWER)
    ensures var f := Run(Init(2), ANSWER);
            && f.pc.Looping? && f.branches == [Reported, Starting] && f.queue == [Response(0, OK)]
            && f.loop == Start(2) && f.views == [] && f.cancels == []
  {
    Three(Init(2), [], Send(0), Store(0), Receive(0, OK));
    assert [] + ANSWER == ANSWER;
  }

  lemma {:induction false} DecideRuns()
    ensures ValidRun(Init(2), ANSWER + DECIDE)
    ensures var f := Run(Init(2), ANSWER + DECIDE);
            f.pc == Answering(0) && f.branches == [Reported, Starting] && f.views == [] && f.cancels == []
  {
    AnswerRuns();
    Three(Init(2), ANSWER, Take, Record, AnswerUpstream);
  }

  lemma {:induction false} PassRuns()
    ensures ValidRun(Init(2), ANSWER + DECIDE + PASS)
    ensures var f := Run(Init(2), ANSWER + DECIDE + PASS);
            && f.pc == Answering(0) && f.branches == [Reported, Sent] && f.views == [Reported, Sent]
            && f.cancels == []
  {
    DecideRuns();
    Three(Init(2), ANSWER + DECIDE, CancelNext, Send(1), CancelNext);
  }

  /** Of two branches the first answers. The second sends its INVITE during the pass over the siblings
      and stores its branch right after its turn: its phone rings, and no CANCEL has been sent to it. */
  lemma {:induction false} JustSentIsNotCancelled()
    ensures ValidRun(Init(2), ANSWER + DECIDE + PASS + RETURN)
    ensures var f := Run(Init(2), ANSWER + DECIDE + PASS + RETURN);
            && f.pc.Returned? && f.branches == [Reported, Running] && f.views == [Reported, Sent]
            && f.cancels == []
  {
    PassRuns();
    var es := ANSWER + DECIDE + PASS;
    Extend(Init(2), es, Store(1));
    Extend(Init(2), es + [Store(1)], CancelNext);
    assert es + [Store(1)] + [CancelNext] == es + RETURN;
  }
}
