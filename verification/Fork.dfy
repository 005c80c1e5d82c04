/** Forking of an INVITE from FreeSWITCH to every contact of an agent.
    One goroutine per branch reports to a results channel; the handler's loop
    takes the reports in whatever order they arrived and answers FreeSWITCH. */
module Fork {
  import opened Text

  datatype Message = Message(code: nat, body: string)

  /** What a branch goroutine puts on the results channel. */
  datatype Report = Failed(idx: nat) | Response(idx: nat, msg: Message)

  predicate Success(m: Message) { 200 <= m.code < 300 }

  predicate GlobalFailure(m: Message) { 600 <= m.code < 700 }

  predicate Decides(r: Report) {
    r.Response? && (Success(r.msg) || GlobalFailure(r.msg))
  }

  predicate Terminal(r: Report) { r.Failed? || r.msg.code >= 200 }

  predicate Candidate(r: Report) { r.Response? && r.msg.code >= 200 && !Decides(r) }

  predicate Provisional(r: Report) { r.Response? && r.msg.code < 200 && r.msg.code != 100 }

  const TRYING := Message(100, "")
  const UNAVAILABLE := Message(480, "")

  /** What is relayed for a deciding response: a 6xx goes up without its body. */
  function Relayed(m: Message): Message {
    if GlobalFailure(m) then Message(m.code, "") else m
  }

  // ---------------------------------------------------------------------
  // The declarative specification, over the reports in channel order
  // ---------------------------------------------------------------------

  predicate NoneDecides(rs: seq<Report>) {
    forall k :: 0 <= k < |rs| ==> !Decides(rs[k])
  }

  /** rs[d] is the first report that decides the whole fork. */
  predicate FirstDecider(rs: seq<Report>, d: int) {
    0 <= d < |rs| && Decides(rs[d]) && NoneDecides(rs[..d])
  }

  /** rs[k] is the lowest failure answered, the earliest on a tie. */
  predicate LowestFailure(rs: seq<Report>, k: int) {
    && 0 <= k < |rs| && Candidate(rs[k])
    && (forall j :: 0 <= j < |rs| && Candidate(rs[j]) ==> rs[k].msg.code <= rs[j].msg.code)
    && (forall j :: 0 <= j < k && Candidate(rs[j]) ==> rs[k].msg.code < rs[j].msg.code)
  }

  /** m is the one final response the reports call for (section 16.7 of RFC 3261). */
  ghost predicate Verdict(rs: seq<Report>, m: Message) {
    if NoneDecides(rs) then
      || (exists k :: LowestFailure(rs, k) && m == rs[k].msg)
      || ((forall k :: 0 <= k < |rs| ==> !Candidate(rs[k])) && m == UNAVAILABLE)
    else
      exists d :: FirstDecider(rs, d) && m == Relayed(rs[d].msg)
  }

  /** prov is the first provisional response other than a 100, if there is one. */
  ghost predicate FirstProvisional(rs: seq<Report>, prov: seq<Message>) {
    || (prov == [] && forall k :: 0 <= k < |rs| ==> !Provisional(rs[k]))
    || (exists k :: 0 <= k < |rs| && Provisional(rs[k]) && prov == [rs[k].msg]
                    && forall j :: 0 <= j < k ==> !Provisional(rs[j]))
  }

  /** The upstream log before the final response: our own 100, then at most one provisional. */
  ghost predicate Preface(rs: seq<Report>, up: seq<Message>) {
    |up| >= 1 && up[0] == TRYING && FirstProvisional(rs, up[1..])
  }

  /** The whole upstream log: the preface, then exactly one final response. */
  ghost predicate Answered(rs: seq<Report>, up: seq<Message>) {
    |up| >= 2 && Preface(rs, up[..|up| - 1]) && Verdict(rs, up[|up| - 1])
  }

  // ---------------------------------------------------------------------
  // The same in plain response codes
  // ---------------------------------------------------------------------

  predicate CodeIn(r: Report, low: nat, high: nat) { r.Response? && low <= r.msg.code < high }

  /** rs[d] is the first 2xx or 6xx. */
  predicate FirstTwoOrSix(rs: seq<Report>, d: int) {
    && 0 <= d < |rs| && (CodeIn(rs[d], 200, 300) || CodeIn(rs[d], 600, 700))
    && forall j :: 0 <= j < d ==> !CodeIn(rs[j], 200, 300) && !CodeIn(rs[j], 600, 700)
  }

  /** rs[k] has the lowest code from 300 up, and is the first with it. */
  predicate LowestFrom300(rs: seq<Report>, k: int) {
    && 0 <= k < |rs| && rs[k].Response? && rs[k].msg.code >= 300
    && (forall j :: 0 <= j < |rs| && rs[j].Response? && rs[j].msg.code >= 300 ==> rs[k].msg.code <= rs[j].msg.code)
    && (forall j :: 0 <= j < k && rs[j].Response? && rs[j].msg.code >= 300 ==> rs[k].msg.code < rs[j].msg.code)
  }

  /** The final response: the first 2xx whole, or the first 6xx with its code and no body; without
      either, the lowest failure whole; without any response from 200 up, a 480. */
  ghost predicate RightFinal(rs: seq<Report>, last: Message) {
    || (exists d :: && FirstTwoOrSix(rs, d) && last.code == rs[d].msg.code
                    && last.body == if rs[d].msg.code < 300 then rs[d].msg.body else "")
    || (&& (forall j :: 0 <= j < |rs| ==> !CodeIn(rs[j], 200, 300) && !CodeIn(rs[j], 600, 700))
        && ((exists k :: LowestFrom300(rs, k) && last == rs[k].msg)
            || ((forall j :: 0 <= j < |rs| && rs[j].Response? ==> rs[j].msg.code < 200) && last == Message(480, ""))))
  }

  /** The whole log: a 100, the first other response below 200 if there is one, and the final response. */
  ghost predicate RightLog(rs: seq<Report>, up: seq<Message>) {
    && 2 <= |up| <= 3 && up[0] == Message(100, "") && RightFinal(rs, up[|up| - 1])
    && (|up| == 2 ==> forall k :: 0 <= k < |rs| && rs[k].Response? && rs[k].msg.code < 200 ==> rs[k].msg.code == 100)
    && (|up| == 3 ==>
          exists k :: && 0 <= k < |rs| && rs[k].Response? && rs[k].msg.code < 200 && rs[k].msg.code != 100
                      && up[1] == rs[k].msg
                      && forall j :: 0 <= j < k && rs[j].Response? && rs[j].msg.code < 200 ==> rs[j].msg.code == 100)
  }

  lemma VerdictIsRight(rs: seq<Report>, m: Message)
    requires Verdict(rs, m)
    ensures RightFinal(rs, m)
  {
    if NoneDecides(rs) {
      forall j | 0 <= j < |rs| ensures !CodeIn(rs[j], 200, 300) && !CodeIn(rs[j], 600, 700) {
        assert !Decides(rs[j]);
      }
      if k :| LowestFailure(rs, k) && m == rs[k].msg {
        assert forall j :: 0 <= j < |rs| && rs[j].Response? && rs[j].msg.code >= 300 ==> Candidate(rs[j]);
        assert LowestFrom300(rs, k);
      } else {
        assert forall j :: 0 <= j < |rs| && rs[j].Response? ==> !Candidate(rs[j]) && !Decides(rs[j]);
      }
    } else {
      var d :| FirstDecider(rs, d) && m == Relayed(rs[d].msg);
      forall j | 0 <= j < d ensures !CodeIn(rs[j], 200, 300) && !CodeIn(rs[j], 600, 700) {
        NotBefore(rs, d, j);
      }
      assert FirstTwoOrSix(rs, d);
    }
  }

  lemma ProvisionalIsRight(rs: seq<Report>, up: seq<Message>)
    requires Preface(rs, up)
    ensures 1 <= |up| <= 2 && up[0] == Message(100, "")
    ensures |up| == 1 ==> forall k :: 0 <= k < |rs| && rs[k].Response? && rs[k].msg.code < 200 ==> rs[k].msg.code == 100
    ensures |up| == 2 ==>
              exists k :: && 0 <= k < |rs| && rs[k].Response? && rs[k].msg.code < 200 && rs[k].msg.code != 100
                          && up[1] == rs[k].msg
                          && forall j :: 0 <= j < k && rs[j].Response? && rs[j].msg.code < 200 ==> rs[j].msg.code == 100
  {
    assert forall j :: 0 <= j < |rs| && rs[j].Response? && rs[j].msg.code < 200 && rs[j].msg.code != 100 ==>
                         Provisional(rs[j]);
    if |up| > 1 {
      var k :| 0 <= k < |rs| && Provisional(rs[k]) && up[1..] == [rs[k].msg]
               && forall j :: 0 <= j < k ==> !Provisional(rs[j]);
      assert up[1] == up[1..][0] == rs[k].msg;
    }
  }

  /** A log that the specification asks for is the right one, in terms of the codes alone. */
  lemma AnsweredIsRight(rs: seq<Report>, up: seq<Message>)
    requires Answered(rs, up)
    ensures RightLog(rs, up)
  {
    ProvisionalIsRight(rs, up[..|up| - 1]);
    VerdictIsRight(rs, up[|up| - 1]);
    assert |up| == 3 ==> up[..|up| - 1][1] == up[1];
  }

  /** The contacts unregistered are those of the branches that failed, in order, and no other. */
  lemma {:induction false} FailedBranchesAre(rs: seq<Report>)
    ensures forall i: nat :: i in FailedBranches(rs) <==> exists k :: 0 <= k < |rs| && rs[k] == Failed(i)
  {
    if rs != [] {
      var n := |rs| - 1;
      FailedBranchesAre(rs[..n]);
      forall i: nat ensures i in FailedBranches(rs) <==> exists k :: 0 <= k < |rs| && rs[k] == Failed(i) {
        if k :| 0 <= k < |rs| && rs[k] == Failed(i) {
          assert k < n ==> rs[..n][k] == Failed(i);
        }
        if i in FailedBranches(rs[..n]) {
          var k :| 0 <= k < n && rs[..n][k] == Failed(i);
          assert rs[k] == Failed(i);
        }
      }
    }
  }

  function Terminals(rs: seq<Report>): nat {
    if rs == [] then 0
    else Terminals(rs[..|rs| - 1]) + if Terminal(rs[|rs| - 1]) then 1 else 0
  }

  /** The branches that failed, in order: their contacts are unregistered. */
  function FailedBranches(rs: seq<Report>): seq<nat> {
    if rs == [] then []
    else FailedBranches(rs[..|rs| - 1]) + if rs[|rs| - 1].Failed? then [rs[|rs| - 1].idx] else []
  }

  lemma NotBefore(rs: seq<Report>, d: int, j: nat)
    requires FirstDecider(rs, d) && j < d
    ensures !Decides(rs[j])
  {
    assert rs[..d][j] == rs[j];
  }

  lemma DecidersAgree(rs: seq<Report>, d: int, d': int)
    requires FirstDecider(rs, d) && FirstDecider(rs, d')
    ensures d == d'
  {
    if d < d' {
      NotBefore(rs, d', d);
    } else if d' < d {
      NotBefore(rs, d, d');
    }
  }

  /** The specification leaves no choice: same reports, same final response. */
  lemma {:induction false} VerdictIsUnique(rs: seq<Report>, m: Message, m': Message)
    requires Verdict(rs, m) && Verdict(rs, m')
    ensures m == m'
  {
    if NoneDecides(rs) {
      if k :| LowestFailure(rs, k) && m == rs[k].msg {
        if k' :| LowestFailure(rs, k') && m' == rs[k'].msg {
          assert !(k < k') && !(k' < k);
        }
      }
    } else {
      var d :| FirstDecider(rs, d) && m == Relayed(rs[d].msg);
      var d' :| FirstDecider(rs, d') && m' == Relayed(rs[d'].msg);
      DecidersAgree(rs, d, d');
    }
  }

  lemma TerminalsOfConcat(a: seq<Report>, b: seq<Report>)
    ensures Terminals(a + b) == Terminals(a) + Terminals(b)
  {
    if b == [] {
      assert a + b == a;
    } else {
      assert (a + b)[..|a + b| - 1] == a + b[..|b| - 1];
      TerminalsOfConcat(a, b[..|b| - 1]);
    }
  }

  // ---------------------------------------------------------------------
  // The handler's loop
  // ---------------------------------------------------------------------

  /** The loop's variables: pending, relayedProvisional, bestFinal; the messages
      sent upstream and the contacts it unregistered. */
  datatype Loop = Loop(pending: int, relayed: bool, best: Option<Message>,
                       up: seq<Message>, dead: seq<nat>)

  function Start(n: nat): Loop { Loop(n, false, None, [TRYING], []) }

  /** One report that does not decide the fork. A deciding report only lowers pending here. */
  function Absorb(l: Loop, r: Report): Loop {
    match r
    case Failed(i) => l.(pending := l.pending - 1, dead := l.dead + [i])
    case Response(_, m) =>
      if m.code == 100 then l
      else if m.code < 200 then
        if l.relayed then l else l.(relayed := true, up := l.up + [m])
      else if Decides(r) then l.(pending := l.pending - 1)
      else if l.best.None? || m.code < l.best.value.code then
        l.(pending := l.pending - 1, best := Some(m))
      else l.(pending := l.pending - 1)
  }

  function AbsorbAll(n: nat, rs: seq<Report>): Loop {
    if rs == [] then Start(n) else Absorb(AbsorbAll(n, rs[..|rs| - 1]), rs[|rs| - 1])
  }

  /** The response relayed when no report decided. */
  function Fallback(l: Loop): Message {
    if l.best.Some? then l.best.value else UNAVAILABLE
  }

  /** The loop's variables say exactly what the reports so far say. */
  ghost predicate Tracks(n: nat, rs: seq<Report>, l: Loop) {
    && l.pending == n - Terminals(rs)
    && Preface(rs, l.up)
    && (l.relayed <==> |l.up| == 2)
    && (l.best.Some? ==> exists k :: LowestFailure(rs, k) && l.best.value == rs[k].msg)
    && (l.best.None? ==> forall k :: 0 <= k < |rs| ==> !Candidate(rs[k]))
    && l.dead == FailedBranches(rs)
  }

  lemma PrefaceExtends(rs: seq<Report>, r: Report, up: seq<Message>)
    requires Preface(rs, up)
    ensures |up| == 2 || !Provisional(r) ==> Preface(rs + [r], up)
    ensures |up| != 2 && Provisional(r) ==> |up| == 1 && Preface(rs + [r], up + [r.msg])
  {
    var rs' := rs + [r];
    if |up| == 2 {
      var k :| 0 <= k < |rs| && Provisional(rs[k]) && up[1..] == [rs[k].msg]
               && forall j :: 0 <= j < k ==> !Provisional(rs[j]);
      assert rs'[k] == rs[k] && forall j :: 0 <= j < k ==> rs'[j] == rs[j];
    } else {
      assert up[1..] == [] && forall j :: 0 <= j < |rs| ==> rs'[j] == rs[j];
      if Provisional(r) {
        assert rs'[|rs|] == r && (up + [r.msg])[1..] == [r.msg];
      }
    }
  }

  lemma BestExtends(rs: seq<Report>, r: Report, k: nat)
    requires LowestFailure(rs, k)
    ensures Candidate(r) && r.msg.code < rs[k].msg.code ==> LowestFailure(rs + [r], |rs|)
    ensures !(Candidate(r) && r.msg.code < rs[k].msg.code) ==> LowestFailure(rs + [r], k)
  {
    var rs' := rs + [r];
    assert rs'[|rs|] == r && forall j :: 0 <= j < |rs| ==> rs'[j] == rs[j];
  }

  lemma AbsorbKeepsTracking(n: nat, rs: seq<Report>, l: Loop, r: Report)
    requires Tracks(n, rs, l)
    ensures Tracks(n, rs + [r], Absorb(l, r))
  {
    var rs' := rs + [r];
    assert rs'[..|rs'| - 1] == rs;
    assert rs'[|rs|] == r && forall j :: 0 <= j < |rs| ==> rs'[j] == rs[j];
    PrefaceExtends(rs, r, l.up);
    if l.best.Some? {
      var k :| LowestFailure(rs, k) && l.best.value == rs[k].msg;
      BestExtends(rs, r, k);
    } else if Candidate(r) {
      assert LowestFailure(rs', |rs|);
    }
  }

  /** The loop's three variables are a running summary of everything received. */
  lemma {:induction false} LoopTracksReports(n: nat, rs: seq<Report>)
    ensures Tracks(n, rs, AbsorbAll(n, rs))
  {
    if rs != [] {
      LoopTracksReports(n, rs[..|rs| - 1]);
      AbsorbKeepsTracking(n, rs[..|rs| - 1], AbsorbAll(n, rs[..|rs| - 1]), rs[|rs| - 1]);
      assert rs[..|rs| - 1] + [rs[|rs| - 1]] == rs;
    }
  }

  lemma VerdictWhenNoneDecides(n: nat, rs: seq<Report>, l: Loop)
    requires Tracks(n, rs, l) && NoneDecides(rs)
    ensures Answered(rs, l.up + [Fallback(l)])
  {
    assert (l.up + [Fallback(l)])[..|l.up|] == l.up;
  }

  lemma VerdictWhenLastDecides(n: nat, rs: seq<Report>, l: Loop)
    requires rs != [] && Tracks(n, rs, l)
    requires NoneDecides(rs[..|rs| - 1]) && Decides(rs[|rs| - 1])
    ensures Answered(rs, l.up + [Relayed(rs[|rs| - 1].msg)])
  {
    var up := l.up + [Relayed(rs[|rs| - 1].msg)];
    assert up[..|l.up|] == l.up;
    assert FirstDecider(rs, |rs| - 1);
  }

  lemma OneMore(n: nat, rs: seq<Report>, k: nat)
    requires k < |rs|
    ensures AbsorbAll(n, rs[..k + 1]) == Absorb(AbsorbAll(n, rs[..k]), rs[k])
    ensures NoneDecides(rs[..k]) && !Decides(rs[k]) ==> NoneDecides(rs[..k + 1])
  {
    assert rs[..k + 1][..k] == rs[..k];
    assert rs[..k + 1][k] == rs[k] && forall j :: 0 <= j < k ==> rs[..k + 1][j] == rs[..k][j];
  }

  lemma DeciderTaken(n: nat, rs: seq<Report>, k: nat)
    requires k < |rs| && NoneDecides(rs[..k]) && Decides(rs[k])
    ensures Answered(rs[..k + 1], AbsorbAll(n, rs[..k + 1]).up + [Relayed(rs[k].msg)])
    ensures FirstDecider(rs, k) && FirstDecider(rs[..k + 1], k)
  {
    assert rs[..k + 1][..k] == rs[..k] && rs[..k + 1][k] == rs[k];
    LoopTracksReports(n, rs[..k + 1]);
    VerdictWhenLastDecides(n, rs[..k + 1], AbsorbAll(n, rs[..k + 1]));
  }

  lemma StillPending(n: nat, rs: seq<Report>)
    ensures AbsorbAll(n, rs).pending == n - Terminals(rs)
    ensures AbsorbAll(n, rs).dead == FailedBranches(rs)
  {
    LoopTracksReports(n, rs);
  }

  lemma AllTaken(n: nat, rs: seq<Report>)
    requires NoneDecides(rs)
    ensures Answered(rs, AbsorbAll(n, rs).up + [Fallback(AbsorbAll(n, rs))])
  {
    LoopTracksReports(n, rs);
    VerdictWhenNoneDecides(n, rs, AbsorbAll(n, rs));
  }

  datatype Outcome = Outcome(up: seq<Message>, dead: seq<nat>, winner: Option<nat>, taken: nat)

  /** The rest of a run: k reports taken, the loop's variables holding l. */
  function Drive(rs: seq<Report>, k: nat, l: Loop): Outcome
    requires k <= |rs|
    decreases |rs| - k
  {
    if l.pending <= 0 || k == |rs| then Outcome(l.up + [Fallback(l)], l.dead, None, k)
    else
      var r, l' := rs[k], Absorb(l, rs[k]);
      if Decides(r) then
        Outcome(l'.up + [Relayed(r.msg)], l'.dead, if Success(r.msg) then Some(r.idx) else None, k + 1)
      else Drive(rs, k + 1, l')
  }

  /** A finished run is what the declarative specification asks for. */
  ghost predicate MeetsSpec(n: nat, rs: seq<Report>, o: Outcome) {
    && o.taken <= |rs| && Answered(rs[..o.taken], o.up)
    && o.dead == FailedBranches(rs[..o.taken])
    && (NoneDecides(rs[..o.taken]) ==> Terminals(rs[..o.taken]) == n && o.winner.None?)
    && (!NoneDecides(rs[..o.taken]) ==>
          && FirstDecider(rs, o.taken - 1)
          && o.winner == if Success(rs[o.taken - 1].msg) then Some(rs[o.taken - 1].idx) else None)
  }

  lemma DecidedRunMeetsSpec(n: nat, rs: seq<Report>, k: nat)
    requires k < |rs| && NoneDecides(rs[..k]) && Decides(rs[k])
    ensures MeetsSpec(n, rs, Outcome(AbsorbAll(n, rs[..k + 1]).up + [Relayed(rs[k].msg)],
                                     AbsorbAll(n, rs[..k + 1]).dead,
                                     if Success(rs[k].msg) then Some(rs[k].idx) else None, k + 1))
  {
    DeciderTaken(n, rs, k);
    StillPending(n, rs[..k + 1]);
    assert rs[..k + 1][k] == rs[k];
  }

  lemma UndecidedRunMeetsSpec(n: nat, rs: seq<Report>, k: nat)
    requires k <= |rs| && NoneDecides(rs[..k]) && AbsorbAll(n, rs[..k]).pending == 0
    ensures MeetsSpec(n, rs, Outcome(AbsorbAll(n, rs[..k]).up + [Fallback(AbsorbAll(n, rs[..k]))],
                                     AbsorbAll(n, rs[..k]).dead, None, k))
  {
    StillPending(n, rs[..k]);
    AllTaken(n, rs[..k]);
  }

  lemma DriveStops(rs: seq<Report>, k: nat, l: Loop)
    requires k <= |rs| && (l.pending <= 0 || k == |rs|)
    ensures Drive(rs, k, l) == Outcome(l.up + [Fallback(l)], l.dead, None, k)
  {
  }

  lemma DriveDecides(rs: seq<Report>, k: nat, l: Loop)
    requires k < |rs| && l.pending > 0 && Decides(rs[k])
    ensures var l' := Absorb(l, rs[k]);
            Drive(rs, k, l) == Outcome(l'.up + [Relayed(rs[k].msg)], l'.dead,
                                       if Success(rs[k].msg) then Some(rs[k].idx) else None, k + 1)
  {
  }

  lemma DriveNext(rs: seq<Report>, k: nat, l: Loop)
    requires k < |rs| && l.pending > 0 && !Decides(rs[k])
    ensures Drive(rs, k, l) == Drive(rs, k + 1, Absorb(l, rs[k]))
  {
  }

  /** No report decided and as many as there are branches ended one: there is no more to take. */
  lemma OutOfReports(n: nat, rs: seq<Report>)
    requires NoneDecides(rs) && Terminals(rs) >= n
    ensures AbsorbAll(n, rs).pending <= 0
  {
    StillPending(n, rs);
  }

  /** Every run that can finish answers FreeSWITCH as the specification says; l holds
      the loop's variables after the first k reports. */
  lemma {:induction false} DriveMeetsSpec(n: nat, rs: seq<Report>, k: nat, l: Loop)
    requires k <= |rs| && NoneDecides(rs[..k])
    requires Terminals(rs) >= n || !NoneDecides(rs)
    requires l == AbsorbAll(n, rs[..k]) && l.pending >= 0
    ensures MeetsSpec(n, rs, Drive(rs, k, l))
    decreases |rs| - k
  {
    if l.pending == 0 {
      DriveStops(rs, k, l);
      UndecidedRunMeetsSpec(n, rs, k);
    } else if k == |rs| {
      assert rs[..k] == rs;
      OutOfReports(n, rs);
    } else {
      OneMore(n, rs, k);
      if Decides(rs[k]) {
        DriveDecides(rs, k, l);
        DecidedRunMeetsSpec(n, rs, k);
      } else {
        DriveNext(rs, k, l);
        DriveMeetsSpec(n, rs, k + 1, Absorb(l, rs[k]));
      }
    }
  }

  lemma {:induction false} WholeRunMeetsSpec(n: nat, rs: seq<Report>)
    ensures Terminals(rs) >= n || !NoneDecides(rs) ==> MeetsSpec(n, rs, Drive(rs, 0, Start(n)))
  {
    assert rs[..0] == [];
    if Terminals(rs) >= n || !NoneDecides(rs) {
      DriveMeetsSpec(n, rs, 0, Start(n));
    }
  }

  /** What a finished run has to show, in terms of the reports it took: the log, the contacts unregistered,
      and the branch whose 2xx it was, if one decided. */
  ghost predicate RightOutcome(rs: seq<Report>, o: Outcome) {
    && o.taken <= |rs| && RightLog(rs[..o.taken], o.up)
    && (forall i: nat :: i in o.dead <==> exists k :: 0 <= k < o.taken && rs[k] == Failed(i))
    && (o.winner.Some? ==>
          o.taken > 0 && CodeIn(rs[o.taken - 1], 200, 300) && o.winner == Some(rs[o.taken - 1].idx))
    && (o.winner.None? ==> forall k :: 0 <= k < o.taken ==> !CodeIn(rs[k], 200, 300))
  }

  lemma {:induction false} MeetsSpecIsRight(n: nat, rs: seq<Report>, o: Outcome)
    requires MeetsSpec(n, rs, o)
    ensures RightOutcome(rs, o)
  {
    AnsweredIsRight(rs[..o.taken], o.up);
    DeadAreRight(rs, o.taken);
    WinnerIsRight(n, rs, o);
  }

  lemma {:induction false} DeadAreRight(rs: seq<Report>, t: nat)
    requires t <= |rs|
    ensures forall i: nat :: i in FailedBranches(rs[..t]) <==> exists k :: 0 <= k < t && rs[k] == Failed(i)
  {
    var taken := rs[..t];
    FailedBranchesAre(taken);
    forall i: nat ensures i in FailedBranches(taken) <==> exists k :: 0 <= k < t && rs[k] == Failed(i) {
      if k :| 0 <= k < t && rs[k] == Failed(i) {
        assert taken[k] == Failed(i);
      }
    }
  }

  lemma {:induction false} WinnerIsRight(n: nat, rs: seq<Report>, o: Outcome)
    requires MeetsSpec(n, rs, o)
    ensures o.winner.Some? ==>
              o.taken > 0 && CodeIn(rs[o.taken - 1], 200, 300) && o.winner == Some(rs[o.taken - 1].idx)
    ensures o.winner.None? ==> forall k :: 0 <= k < o.taken ==> !CodeIn(rs[k], 200, 300)
  {
    var taken := rs[..o.taken];
    if o.winner.None? {
      forall k | 0 <= k < o.taken ensures !CodeIn(rs[k], 200, 300) {
        assert taken[k] == rs[k];
        if NoneDecides(taken) {
          assert !Decides(taken[k]);
        } else if k < o.taken - 1 {
          NotBefore(rs, o.taken - 1, k);
        }
      }
    }
  }

  /** handleInviteFromFSToUser's loop over the results channel. It is given the order of arrival; `taken`
      reports are consumed, and the messages it sends are those the specification asks for. */
  method RunLoop(n: nat, results: seq<Report>)
    returns (up: seq<Message>, dead: seq<nat>, winner: Option<nat>, taken: nat)
    requires n > 0
    ensures Outcome(up, dead, winner, taken) == Drive(results, 0, Start(n))
    ensures Terminals(results) >= n || !NoneDecides(results) ==>
              && MeetsSpec(n, results, Outcome(up, dead, winner, taken))
              && RightOutcome(results, Outcome(up, dead, winner, taken))
  {
    up, dead, winner, taken := TakeReports(n, results);
    WholeRunMeetsSpec(n, results);
    WholeRunIsRight(n, results);
  }

  lemma {:induction false} WholeRunIsRight(n: nat, rs: seq<Report>)
    ensures Terminals(rs) >= n || !NoneDecides(rs) ==> RightOutcome(rs, Drive(rs, 0, Start(n)))
  {
    WholeRunMeetsSpec(n, rs);
    if Terminals(rs) >= n || !NoneDecides(rs) {
      MeetsSpecIsRight(n, rs, Drive(rs, 0, Start(n)));
    }
  }

  method TakeReports(n: nat, results: seq<Report>)
    returns (up: seq<Message>, dead: seq<nat>, winner: Option<nat>, taken: nat)
    requires n > 0
    ensures Outcome(up, dead, winner, taken) == Drive(results, 0, Start(n))
  {
    var pending: int := n;
    var relayedProvisional := false;
    var bestFinal: Option<Message> := None;
    up, dead, winner, taken := [TRYING], [], None, 0;
    ghost var whole := Drive(results, 0, Start(n));
    while pending > 0 && taken < |results|
      invariant taken <= |results| && winner.None?
      invariant Drive(results, taken, Loop(pending, relayedProvisional, bestFinal, up, dead)) == whole
    {
      var r := results[taken];
      taken := taken + 1;
      if r.Failed? {
        pending := pending - 1;
        dead := dead + [r.idx];
        continue;
      }
      if r.msg.code == 100 {
        continue;
      }
      if r.msg.code < 200 {
        if !relayedProvisional {
          relayedProvisional := true;
          up := up + [r.msg];
        }
        continue;
      }
      pending := pending - 1;
      if GlobalFailure(r.msg) {
        up := up + [Message(r.msg.code, "")];
        return;
      }
      if Success(r.msg) {
        winner := Some(r.idx);
        up := up + [r.msg];
        return;
      }
      if bestFinal.None? || r.msg.code < bestFinal.value.code {
        bestFinal := Some(r.msg);
      }
    }
    if bestFinal.Some? {
      up := up + [bestFinal.value];
    } else {
      up := up + [UNAVAILABLE];
    }
  }
}
