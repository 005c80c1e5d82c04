/** The fork of one INVITE as a machine of interleaved atomic steps: a goroutine
    per branch, the results channel between them, and the handler's loop. */
module ForkMachine {
  import opened Text
  import opened Fork

  /** Where a branch goroutine is. `branches[i]` is nil in Starting, Sent and Unsent; the
      branch's final flag is set in Final and Quiet. */
  datatype Branch =
    | Starting   // INVITE not sent yet
    | Sent       // INVITE out, `branches[i]` not stored yet
    | Unsent     // the send failed, and was reported
    | Running    // stored, waiting for responses
    | Reported   // its last report is on the channel, the final flag not set yet
    | Final      // reported, final flag set
    | Quiet      // transaction over without an error: nothing reported, flag set
    | Vanished   // response channel closed or context cancelled: nothing reported, flag not set

  /** What cancelBranch tests: `branches[i]` stored, and its final flag not set. */
  predicate Cancellable(b: Branch) { b.Running? || b.Reported? || b.Vanished? }

  /** `branches[i]` is nil. */
  predicate NotStored(b: Branch) { b.Starting? || b.Sent? || b.Unsent? }

  predicate HasReported(b: Branch) { b.Unsent? || b.Reported? || b.Final? }

  /** Where the handler is. */
  datatype Pc =
    | Looping
    | Won(who: nat, msg: Message)                      // took a 2xx
    | Recorded(who: nat, msg: Message)                 // wrote the call table
    | Answering(who: nat)                              // 2xx is upstream, cancelling siblings
    | Declining(who: nat, msg: Message)                // took a 6xx, cancelling siblings
    | Returned

  /** `seen` and `views` are history: the reports taken, and each branch as the
      deciding pass over the siblings found it when its turn came. */
  datatype Fanout = Fanout(branches: seq<Branch>, queue: seq<Report>, pc: Pc, loop: Loop,
                       cancels: seq<nat>, upstreamCancels: seq<nat>,
                       seen: seq<Report>, views: seq<Branch>)

  function Init(n: nat): Fanout {
    Fanout(seq(n, i => Starting), [], Looping, Start(n), [], [], [], [])
  }

  datatype Event =
    | Send(i: nat) | SendFails(i: nat) | Store(i: nat) | Receive(i: nat, msg: Message) | TxFails(i: nat)
    | MarkFinal(i: nat) | EndQuietly(i: nat) | Vanish(i: nat)
    | Take | Record | AnswerUpstream | CancelNext | GiveUp
    | UpstreamCancel(i: nat)

  predicate At(f: Fanout, i: nat, b: Branch) { i < |f.branches| && f.branches[i] == b }

  predicate Enabled(f: Fanout, e: Event) {
    match e
    case Send(i) => At(f, i, Starting)
    case SendFails(i) => At(f, i, Starting)
    case Store(i) => At(f, i, Sent)
    case Receive(i, _) => At(f, i, Running)
    case TxFails(i) => At(f, i, Running)
    case MarkFinal(i) => At(f, i, Reported)
    case EndQuietly(i) => At(f, i, Running)
    case Vanish(i) => At(f, i, Running)
    case Take => f.pc.Looping? && f.loop.pending > 0 && f.queue != []
    case Record => f.pc.Won?
    case AnswerUpstream => f.pc.Recorded?
    case CancelNext => f.pc.Answering? || f.pc.Declining?
    case GiveUp => f.pc.Looping? && f.loop.pending <= 0
    case UpstreamCancel(i) => i < |f.branches|
  }

  function SetBranch(f: Fanout, i: nat, b: Branch): Fanout
    requires i < |f.branches|
  {
    f.(branches := f.branches[i := b])
  }

  function Put(f: Fanout, r: Report): Fanout { f.(queue := f.queue + [r]) }

  /** The loop's next iteration: a receive from the results channel. */
  function TakeReport(f: Fanout): Fanout
    requires f.queue != []
  {
    var r := f.queue[0];
    var f' := f.(queue := f.queue[1..], seen := f.seen + [r], loop := Absorb(f.loop, r));
    if !Decides(r) then f'
    else if Success(r.msg) then f'.(pc := Won(r.idx, r.msg))
    else f'.(pc := Declining(r.idx, r.msg))
  }

  /** One turn of the pass over the siblings; past the last one the handler
      declines (after a 6xx) and returns. */
  function PassStep(f: Fanout): Fanout
    requires f.pc.Answering? || f.pc.Declining?
  {
    var i := |f.views|;
    if i < |f.branches| then
      f.(views := f.views + [f.branches[i]],
         cancels := if i != f.pc.who && Cancellable(f.branches[i]) then f.cancels + [i] else f.cancels)
    else if f.pc.Answering? then f.(pc := Returned)
    else f.(pc := Returned, loop := f.loop.(up := f.loop.up + [Relayed(f.pc.msg)]))
  }

  function Step(f: Fanout, e: Event): Fanout
    requires Enabled(f, e)
  {
    match e
    case Send(i) => SetBranch(f, i, Sent)
    case Store(i) => SetBranch(f, i, Running)
    case SendFails(i) => Put(SetBranch(f, i, Unsent), Failed(i))
    case Receive(i, m) => Put(if m.code >= 200 then SetBranch(f, i, Reported) else f, Response(i, m))
    case TxFails(i) => Put(SetBranch(f, i, Reported), Failed(i))
    case MarkFinal(i) => SetBranch(f, i, Final)
    case EndQuietly(i) => SetBranch(f, i, Quiet)
    case Vanish(i) => SetBranch(f, i, Vanished)
    case Take => TakeReport(f)
    case Record => f.(pc := Recorded(f.pc.who, f.pc.msg))
    case AnswerUpstream => f.(pc := Answering(f.pc.who), loop := f.loop.(up := f.loop.up + [f.pc.msg]))
    case CancelNext => PassStep(f)
    case GiveUp => f.(pc := Returned, loop := f.loop.(up := f.loop.up + [Fallback(f.loop)]))
    case UpstreamCancel(i) =>
      if Cancellable(f.branches[i]) then f.(upstreamCancels := f.upstreamCancels + [i]) else f
  }

  predicate ValidRun(f: Fanout, es: seq<Event>)
    decreases |es|
  {
    es == [] || (Enabled(f, es[0]) && ValidRun(Step(f, es[0]), es[1..]))
  }

  function Run(f: Fanout, es: seq<Event>): Fanout
    requires ValidRun(f, es)
    decreases |es|
  {
    if es == [] then f else Run(Step(f, es[0]), es[1..])
  }

  // ---------------------------------------------------------------------
  // The invariant
  // ---------------------------------------------------------------------

  function CountReported(bs: seq<Branch>): nat {
    if bs == [] then 0
    else CountReported(bs[..|bs| - 1]) + if HasReported(bs[|bs| - 1]) then 1 else 0
  }

  /** The siblings a pass decided by `who` must have cancelled, given what it saw. */
  function MustCancel(views: seq<Branch>, who: nat): seq<nat> {
    if views == [] then []
    else
      var i := |views| - 1;
      MustCancel(views[..i], who) + if i != who && Cancellable(views[i]) then [i] else []
  }

  /** Every report names a branch; a response names one that is stored. */
  predicate Sound(bs: seq<Branch>, r: Report) {
    && r.idx < |bs|
    && (r.Response? ==> !NotStored(bs[r.idx]))
  }

  predicate AllSound(bs: seq<Branch>, rs: seq<Report>) {
    forall k :: 0 <= k < |rs| ==> Sound(bs, rs[k])
  }

  /** The channel and the loop account for every report exactly once. */
  predicate Accounted(f: Fanout) {
    && AllSound(f.branches, f.seen) && AllSound(f.branches, f.queue)
    && Terminals(f.seen) + Terminals(f.queue) == CountReported(f.branches)
    && CountReported(f.branches) <= |f.branches|
  }

  predicate DecidedBy(seen: seq<Report>, who: nat, msg: Message) {
    && seen != [] && seen[|seen| - 1] == Response(who, msg)
    && NoneDecides(seen[..|seen| - 1])
  }

  ghost predicate PcInv(f: Fanout) {
    var n := |f.branches|;
    match f.pc
    case Looping => Tracks(n, f.seen, f.loop) && NoneDecides(f.seen) && f.views == [] && f.cancels == []
    case Won(who, m) =>
      Tracks(n, f.seen, f.loop) && DecidedBy(f.seen, who, m) && Success(m) && f.views == [] && f.cancels == []
    case Recorded(who, m) =>
      Tracks(n, f.seen, f.loop) && DecidedBy(f.seen, who, m) && Success(m) && f.views == [] && f.cancels == []
    case Answering(who) =>
      && Answered(f.seen, f.loop.up)
      && (exists m :: DecidedBy(f.seen, who, m) && Success(m))
      && |f.views| <= n && f.cancels == MustCancel(f.views, who)
    case Declining(who, m) =>
      && Tracks(n, f.seen, f.loop) && DecidedBy(f.seen, who, m) && GlobalFailure(m)
      && |f.views| <= n && f.cancels == MustCancel(f.views, who)
    case Returned =>
      && Answered(f.seen, f.loop.up)
      && if NoneDecides(f.seen) then f.cancels == [] && Terminals(f.seen) == n
         else exists who: nat, m :: DecidedBy(f.seen, who, m) && |f.views| == n && f.cancels == MustCancel(f.views, who)
  }

  ghost predicate Inv(f: Fanout) { Accounted(f) && PcInv(f) }

  lemma CountOfUpdate(bs: seq<Branch>, i: nat, b: Branch)
    requires i < |bs|
    ensures CountReported(bs[i := b]) ==
            CountReported(bs) - (if HasReported(bs[i]) then 1 else 0) + (if HasReported(b) then 1 else 0)
  {
    var n := |bs| - 1;
    if i == n {
      assert bs[i := b][..n] == bs[..n];
    } else {
      assert bs[i := b][..n] == bs[..n][i := b];
      CountOfUpdate(bs[..n], i, b);
    }
  }

  lemma CountIsBounded(bs: seq<Branch>)
    ensures CountReported(bs) <= |bs|
    ensures (forall i :: 0 <= i < |bs| ==> HasReported(bs[i])) ==> CountReported(bs) == |bs|
    ensures (forall i :: 0 <= i < |bs| ==> !HasReported(bs[i])) ==> CountReported(bs) == 0
  {
  }

  lemma InitInv(n: nat)
    requires n > 0
    ensures Inv(Init(n))
  {
    CountIsBounded(Init(n).branches);
    LoopTracksReports(n, []);
  }

  lemma SoundAfterMove(bs: seq<Branch>, i: nat, b: Branch, rs: seq<Report>)
    requires i < |bs| && AllSound(bs, rs)
    requires NotStored(bs[i]) || !NotStored(b)
    ensures AllSound(bs[i := b], rs)
  {
    forall k | 0 <= k < |rs| ensures Sound(bs[i := b], rs[k]) {
      assert Sound(bs, rs[k]);
    }
  }

  lemma SoundConcat(bs: seq<Branch>, a: seq<Report>, b: seq<Report>)
    requires AllSound(bs, a) && AllSound(bs, b)
    ensures AllSound(bs, a + b)
  {
  }

  /** A goroutine step: it moves one branch on and may put one report on the channel. */
  lemma BranchStepKeepsAccount(f: Fanout, i: nat, b: Branch, rs: seq<Report>)
    requires Accounted(f) && i < |f.branches|
    requires !HasReported(f.branches[i]) || (f.branches[i].Reported? && HasReported(b))
    requires NotStored(f.branches[i]) || !NotStored(b)
    requires Terminals(rs) == (if HasReported(b) && !HasReported(f.branches[i]) then 1 else 0)
    requires AllSound(f.branches[i := b], rs)
    ensures Accounted(f.(branches := f.branches[i := b], queue := f.queue + rs))
  {
    CountOfUpdate(f.branches, i, b);
    CountIsBounded(f.branches[i := b]);
    TerminalsOfConcat(f.queue, rs);
    SoundAfterMove(f.branches, i, b, f.seen);
    SoundAfterMove(f.branches, i, b, f.queue);
    SoundConcat(f.branches[i := b], f.queue, rs);
  }

  lemma {:induction false} SoundTail(bs: seq<Branch>, rs: seq<Report>)
    requires AllSound(bs, rs) && rs != []
    ensures Sound(bs, rs[0]) && AllSound(bs, rs[1..]) && AllSound(bs, [rs[0]])
  {
    forall k | 0 <= k < |rs| - 1 ensures Sound(bs, rs[1..][k]) {
      assert rs[1..][k] == rs[k + 1];
    }
  }

  lemma {:induction false} TakeMovesOne(seen: seq<Report>, queue: seq<Report>)
    requires queue != []
    ensures Terminals(seen + [queue[0]]) + Terminals(queue[1..]) == Terminals(seen) + Terminals(queue)
  {
    var r, rest := [queue[0]], queue[1..];
    TerminalsOfConcat(r, rest);
    TerminalsOfConcat(seen, r);
    assert queue == r + rest;
  }

  lemma {:induction false} TakeKeepsAccount(f: Fanout)
    requires Accounted(f) && f.queue != []
    ensures Accounted(f.(queue := f.queue[1..], seen := f.seen + [f.queue[0]]))
  {
    SoundTail(f.branches, f.queue);
    SoundConcat(f.branches, f.seen, [f.queue[0]]);
    TakeMovesOne(f.seen, f.queue);
  }

  lemma TakeKeepsInv(f: Fanout)
    requires Inv(f) && Enabled(f, Take)
    ensures Inv(Step(f, Take))
  {
    var r := f.queue[0];
    TakeKeepsAccount(f);
    AccountFrame(f.(queue := f.queue[1..], seen := f.seen + [r]), Step(f, Take));
    AbsorbKeepsTracking(|f.branches|, f.seen, f.loop, r);
    TakenDecides(f.seen, r);
  }

  lemma AccountFrame(f: Fanout, f': Fanout)
    requires Accounted(f) && f'.branches == f.branches && f'.queue == f.queue && f'.seen == f.seen
    ensures Accounted(f')
  {
  }

  lemma TakenDecides(seen: seq<Report>, r: Report)
    requires NoneDecides(seen)
    ensures !Decides(r) ==> NoneDecides(seen + [r])
    ensures r.Response? ==> DecidedBy(seen + [r], r.idx, r.msg)
  {
    assert (seen + [r])[..|seen|] == seen;
  }

  lemma DecisionIsFirst(f: Fanout, who: nat, m: Message)
    requires DecidedBy(f.seen, who, m) && (Success(m) || GlobalFailure(m))
    ensures FirstDecider(f.seen, |f.seen| - 1) && !NoneDecides(f.seen)
  {
    assert Decides(f.seen[|f.seen| - 1]);
  }

  lemma PassKeepsInv(f: Fanout)
    requires Inv(f) && Enabled(f, CancelNext)
    ensures Inv(Step(f, CancelNext))
  {
    var f', n := Step(f, CancelNext), |f.branches|;
    AccountFrame(f, f');
    if |f.views| < n {
      NextView(f.views, f.branches[|f.views|], f.pc.who);
    } else if f.pc.Declining? {
      LastDecline(f, f.pc.who, f.pc.msg);
    } else {
      LastCancel(f);
    }
  }

  /** Past the last sibling, a 6xx goes up. */
  lemma LastDecline(f: Fanout, who: nat, m: Message)
    requires PcInv(f) && f.pc == Declining(who, m) && |f.views| == |f.branches|
    ensures PcInv(PassStep(f))
  {
    DecisionIsFirst(f, who, m);
    VerdictWhenLastDecides(|f.branches|, f.seen, f.loop);
    assert DecidedBy(PassStep(f).seen, who, m);
  }

  /** Past the last sibling, a handler that answered with a 2xx is done. */
  lemma LastCancel(f: Fanout)
    requires PcInv(f) && f.pc.Answering? && |f.views| == |f.branches|
    ensures PcInv(PassStep(f))
  {
    var m :| DecidedBy(f.seen, f.pc.who, m) && Success(m);
    DecisionIsFirst(f, f.pc.who, m);
    assert DecidedBy(PassStep(f).seen, f.pc.who, m);
  }

  lemma NextView(views: seq<Branch>, b: Branch, who: nat)
    ensures MustCancel(views + [b], who) ==
            if |views| != who && Cancellable(b) then MustCancel(views, who) + [|views|] else MustCancel(views, who)
  {
    assert (views + [b])[..|views|] == views;
  }

  lemma AnswerKeepsInv(f: Fanout, e: Event)
    requires Inv(f) && Enabled(f, e) && (e.AnswerUpstream? || e.GiveUp?)
    ensures Inv(Step(f, e))
  {
    AccountFrame(f, Step(f, e));
    if e.AnswerUpstream? {
      AnswerKeepsPc(f, f.pc.who, f.pc.msg);
    } else {
      VerdictWhenNoneDecides(|f.branches|, f.seen, f.loop);
    }
  }

  lemma AnswerKeepsPc(f: Fanout, who: nat, m: Message)
    requires PcInv(f) && f.pc == Recorded(who, m)
    ensures PcInv(f.(pc := Answering(who), loop := f.loop.(up := f.loop.up + [m])))
  {
    DecisionIsFirst(f, who, m);
    VerdictWhenLastDecides(|f.branches|, f.seen, f.loop);
    assert DecidedBy(f.seen, who, m) && Success(m);
  }

  lemma PcFrame(f: Fanout, bs: seq<Branch>, q: seq<Report>)
    requires PcInv(f) && |bs| == |f.branches|
    ensures PcInv(f.(branches := bs, queue := q))
  {
  }

  lemma BranchMoveKeepsInv(f: Fanout, i: nat, b: Branch, rs: seq<Report>)
    requires Inv(f) && i < |f.branches|
    requires !HasReported(f.branches[i]) || (f.branches[i].Reported? && HasReported(b))
    requires NotStored(f.branches[i]) || !NotStored(b)
    requires Terminals(rs) == (if HasReported(b) && !HasReported(f.branches[i]) then 1 else 0)
    requires AllSound(f.branches[i := b], rs)
    ensures Inv(f.(branches := f.branches[i := b], queue := f.queue + rs))
  {
    BranchStepKeepsAccount(f, i, b, rs);
    PcFrame(f, f.branches[i := b], f.queue + rs);
  }

  /** The report a branch event puts on the channel, and the branch's next state. */
  function BranchMove(e: Event): (Branch, seq<Report>) {
    match e
    case Send(_) => (Sent, [])
    case Store(_) => (Running, [])
    case SendFails(i) => (Unsent, [Failed(i)])
    case Receive(i, m) => (if m.code >= 200 then Reported else Running, [Response(i, m)])
    case TxFails(i) => (Reported, [Failed(i)])
    case MarkFinal(_) => (Final, [])
    case EndQuietly(_) => (Quiet, [])
    case _ => (Vanished, [])
  }

  predicate BranchEvent(e: Event) {
    e.Send? || e.SendFails? || e.Store? || e.Receive? || e.TxFails? || e.MarkFinal? || e.EndQuietly? || e.Vanish?
  }

  lemma StepIsBranchMove(f: Fanout, e: Event)
    requires Enabled(f, e) && BranchEvent(e)
    ensures Step(f, e) == f.(branches := f.branches[e.i := BranchMove(e).0], queue := f.queue + BranchMove(e).1)
  {
    assert f.branches[e.i := f.branches[e.i]] == f.branches;
    assert f.queue + [] == f.queue;
  }

  /** A branch event follows its branch's course, and reports once. */
  lemma MoveReports(f: Fanout, e: Event)
    requires Enabled(f, e) && BranchEvent(e)
    ensures var was, (b, rs) := f.branches[e.i], BranchMove(e);
            && (!HasReported(was) || (was.Reported? && HasReported(b)))
            && (NotStored(was) || !NotStored(b))
            && Terminals(rs) == (if HasReported(b) && !HasReported(was) then 1 else 0)
            && AllSound(f.branches[e.i := b], rs)
  {
  }

  lemma StepKeepsInv(f: Fanout, e: Event)
    requires Inv(f) && Enabled(f, e)
    ensures Inv(Step(f, e)) && |Step(f, e).branches| == |f.branches|
  {
    if BranchEvent(e) {
      StepIsBranchMove(f, e);
      MoveReports(f, e);
      BranchMoveKeepsInv(f, e.i, BranchMove(e).0, BranchMove(e).1);
    } else if e.Take? {
      TakeKeepsInv(f);
    } else if e.CancelNext? {
      PassKeepsInv(f);
    } else if e.AnswerUpstream? || e.GiveUp? {
      AnswerKeepsInv(f, e);
    }
  }

  /** Every interleaving of the goroutines and the loop keeps the invariant. */
  lemma {:induction false} RunKeepsInv(f: Fanout, es: seq<Event>)
    requires Inv(f) && ValidRun(f, es)
    ensures Inv(Run(f, es)) && |Run(f, es).branches| == |f.branches|
    decreases |es|
  {
    if es != [] {
      StepKeepsInv(f, es[0]);
      RunKeepsInv(Step(f, es[0]), es[1..]);
    }
  }

  // ---------------------------------------------------------------------
  // What FreeSWITCH and the phones see, over every interleaving
  // ---------------------------------------------------------------------

  /** An answered log is the right one: our 100, at most one provisional, then one final response. */
  lemma {:induction false} OneFinalLast(rs: seq<Report>, up: seq<Message>)
    requires Answered(rs, up)
    ensures 2 <= |up| <= 3 && up[0] == TRYING && up[|up| - 1].code >= 200
    ensures forall k :: 0 <= k < |up| - 1 ==> up[k].code < 200
    ensures RightLog(rs, up)
  {
    AnsweredIsRight(rs, up);
    var pre := up[..|up| - 1];
    ProvisionalCodes(rs, pre[1..]);
    VerdictIsFinal(rs, up[|up| - 1]);
    assert |pre| > 1 ==> pre[1..][0] == up[1];
  }

  lemma VerdictIsFinal(rs: seq<Report>, m: Message)
    requires Verdict(rs, m)
    ensures m.code >= 200
  {
  }

  lemma ProvisionalCodes(rs: seq<Report>, prov: seq<Message>)
    requires FirstProvisional(rs, prov)
    ensures |prov| <= 1 && (prov != [] ==> prov[0].code < 200)
  {
    if prov != [] {
      var k :| 0 <= k < |rs| && Provisional(rs[k]) && prov == [rs[k].msg];
    }
  }

  /** Whatever the interleaving, a handler that returns has sent exactly one final
      response, last, and it is the one the reports it took call for. */
  lemma {:induction false} ExactlyOneFinal(n: nat, es: seq<Event>)
    requires n > 0 && ValidRun(Init(n), es) && Run(Init(n), es).pc.Returned?
    ensures var f := Run(Init(n), es);
            && Answered(f.seen, f.loop.up) && RightLog(f.seen, f.loop.up)
            && |f.loop.up| <= 3 && f.loop.up[|f.loop.up| - 1].code >= 200
            && forall k :: 0 <= k < |f.loop.up| - 1 ==> f.loop.up[k].code < 200
  {
    InitInv(n);
    RunKeepsInv(Init(n), es);
    var f := Run(Init(n), es);
    OneFinalLast(f.seen, f.loop.up);
  }

  /** Until it returns, or answers with a 2xx, it has sent no final response. */
  lemma NoFinalBefore(n: nat, es: seq<Event>)
    requires n > 0 && ValidRun(Init(n), es)
    requires var pc := Run(Init(n), es).pc; !pc.Returned? && !pc.Answering?
    ensures forall k :: 0 <= k < |Run(Init(n), es).loop.up| ==> Run(Init(n), es).loop.up[k].code < 200
  {
    InitInv(n);
    RunKeepsInv(Init(n), es);
    var f := Run(Init(n), es);
    ProvisionalCodes(f.seen, f.loop.up[1..]);
    forall k | 0 <= k < |f.loop.up| ensures f.loop.up[k].code < 200 {
      if k > 0 {
        assert f.loop.up[1..][k - 1] == f.loop.up[k];
      }
    }
  }

  lemma MustCancelMembers(views: seq<Branch>, who: nat)
    ensures forall i: nat :: i in MustCancel(views, who) <==>
                               i < |views| && i != who && Cancellable(views[i])
  {
  }

  /** Once decided, the CANCELs sent are those of the siblings that were stored and had
      no final flag, each as its turn found it; never of the branch that decided, and
      that branch is a stored one. */
  lemma DecidingPassIsExact(n: nat, es: seq<Event>)
    requires n > 0 && ValidRun(Init(n), es)
    requires var f := Run(Init(n), es); f.pc.Returned? && !NoneDecides(f.seen)
    ensures var f := Run(Init(n), es);
            exists who: nat, m ::
              && DecidedBy(f.seen, who, m) && who < n == |f.branches|
              && !NotStored(f.branches[who])
              && |f.views| == n
              && forall i: nat :: i in f.cancels <==> i < n && i != who && Cancellable(f.views[i])
  {
    InitInv(n);
    RunKeepsInv(Init(n), es);
    var f := Run(Init(n), es);
    var who: nat, m :| DecidedBy(f.seen, who, m) && |f.views| == n && f.cancels == MustCancel(f.views, who);
    MustCancelMembers(f.views, who);
    assert Sound(f.branches, f.seen[|f.seen| - 1]);
  }
}
