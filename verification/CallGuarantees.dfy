/** What callers of the proxy can rely on, over every interleaving of every call's steps,
    of INVITEs coming in and of changes to the dispatcher's targets. */
module CallGuarantees {
  import opened Text
  import opened CallTables
  import opened CallMachine
  import Dispatch
  import L = CallLocal
  import Fw = Forwarding

  // ---------------------------------------------------------------------
  // ACK
  // ---------------------------------------------------------------------

  /** handleAck: an ACK with Max-Forwards 0, or for a call not in the table, goes nowhere. */
  datatype AckResult = NotForwarded | Forwarded(dest: Option<Addr>, cseq: Option<nat>)

  /** The direction is read off the dispatcher's targets when the ACK arrives. */
  function HandleAck(s: Sys, c: CallId, source: Addr, maxForwards: Option<nat>, cseq: Option<nat>): AckResult {
    if c !in s.t.calls || maxForwards == Some(0) then NotForwarded
    else
      var st, isFS := s.t.calls[c], Dispatch.FromFS(s.targets, source);
      Forwarded(L.Destination(st, isFS), if isFS then Fw.Shifted(cseq, st.fsCSeqOffset) else cseq)
  }

  /** The 2xx has gone upstream and no cleanupCall has run. */
  predicate Established(s: Sys, c: CallId) { Of(s, c).past.answer.Some? && !Of(s, c).past.cleaned }

  function AnswerOf(s: Sys, c: CallId): L.Answer
    requires Established(s, c)
  {
    Of(s, c).past.answer.value
  }

  /** The targets say of a source what they said of the INVITE's when it came in. */
  predicate Agrees(s: Sys, c: CallId, source: Addr) {
    c in s.arrivals && Dispatch.FromFS(s.targets, source) == s.arrivals[c].fromFS
  }

  lemma EstablishedIsInTable(evs: seq<Event>, c: CallId)
    requires ValidRun(INIT, evs) && Established(Run(INIT, evs), c)
    ensures var s := Run(INIT, evs);
            && c in s.t.calls && c in s.arrivals && Remembers(s.t.calls[c], s.arrivals[c])
            && L.Destination(s.t.calls[c], AnswerOf(s, c).fromFS) == L.AddressOf(AnswerOf(s, c))
            && AnswerOf(s, c).fromFS == s.arrivals[c].fromFS
            && s.t.calls[c].fsCSeqOffset == Fw.DigestOffset(Of(s, c).past.cseqs.own, Of(s, c).past.cseqs.auth)
  {
    ReachableInv(evs);
    var s := Run(INIT, evs);
    assert L.Inv(Of(s, c)) && Rows(s.t, c, Of(s, c)) && ArrivalOk(s.arrivals, c, Of(s, c));
  }

  /** The dialog of an established call is always found, and its ACK goes to whoever answered (the
      contact whose branch won, the trunk, or FreeSWITCH) exactly when the targets still say of its
      source what they said when the INVITE came in, or both directions lead to the same address.
      Otherwise the ACK goes back to where the INVITE came from. Its CSeq number changes only on the way
      from FreeSWITCH to a trunk that challenged. */
  lemma AckGoesToTheAnswererIff(evs: seq<Event>, c: CallId, source: Addr, maxForwards: Option<nat>, cseq: Option<nat>)
    requires ValidRun(INIT, evs) && maxForwards != Some(0) && Established(Run(INIT, evs), c)
    ensures var s := Run(INIT, evs);
            var ack := HandleAck(s, c, source, maxForwards, cseq);
            && c in s.t.calls && c in s.arrivals && ack.Forwarded?
            && (ack.dest == L.AddressOf(AnswerOf(s, c)) <==>
                  Agrees(s, c, source) || L.Destination(s.t.calls[c], true) == L.Destination(s.t.calls[c], false))
            && (!Agrees(s, c, source) ==> ack.dest == if s.arrivals[c].source == "" && !s.arrivals[c].fromFS then None
                                        else Some(s.arrivals[c].source))
            && (!Dispatch.FromFS(s.targets, source) ==> ack.cseq == cseq)
            && (Dispatch.FromFS(s.targets, source) && s.t.calls[c].fsCSeqOffset == 0 ==> ack.cseq == cseq)
  {
    EstablishedIsInTable(evs, c);
  }

  predicate Touches(ev: Event, uri: string) { (ev.AddTarget? || ev.RemoveTarget?) && ev.uri == uri }

  predicate NoneTouches(evs: seq<Event>, uri: string) { forall ev :: ev in evs ==> !Touches(ev, uri) }

  predicate NoArrival(evs: seq<Event>, c: CallId) { forall ev :: ev in evs ==> !(ev.Arrive? && ev.call == c) }

  lemma {:induction false} RunConcat(s: Sys, a: seq<Event>, b: seq<Event>)
    requires ValidRun(s, a + b)
    ensures ValidRun(s, a) && ValidRun(Run(s, a), b) && Run(s, a + b) == Run(Run(s, a), b)
    decreases |a|
  {
    if a == [] {
      assert a + b == b;
    } else {
      assert (a + b)[1..] == a[1..] + b;
      RunConcat(Step(s, a[0]), a[1..], b);
    }
  }

  lemma {:induction false} UntouchedStays(s: Sys, evs: seq<Event>, source: Addr, c: CallId)
    requires ValidRun(s, evs) && NoneTouches(evs, Dispatch.FsUri(Dispatch.SourceIP(source))) && NoArrival(evs, c)
    requires Inv(s)
    ensures Dispatch.FromFS(Run(s, evs).targets, source) == Dispatch.FromFS(s.targets, source)
    ensures c in s.arrivals ==>
              && c in Run(s, evs).arrivals
              && Run(s, evs).arrivals[c] == s.arrivals[c].(choice := Run(s, evs).arrivals[c].choice)
    decreases |evs|
  {
    if evs != [] {
      var ev := evs[0];
      assert ev in evs && !Touches(ev, Dispatch.FsUri(Dispatch.SourceIP(source)));
      StepKeepsInv(s, ev);
      if ev.AddTarget? {
        Dispatch.AddedKeepsNoDuplicates(s.targets, ev.uri);
      } else if ev.RemoveTarget? {
        Dispatch.WithoutKeepsNoDuplicates(s.targets, ev.uri);
      }
      UntouchedStays(Step(s, ev), evs[1..], source, c);
    }
  }

  /** So the caller's ACK, from whatever port of the address its INVITE came from, reaches whoever
      answered, if that address has neither become a target nor ceased to be one since the INVITE. */
  lemma AckReachesWhoeverAnswered(before: seq<Event>, c: CallId, source: Addr, after: seq<Event>, ackFrom: Addr,
                                  maxForwards: Option<nat>, cseq: Option<nat>)
    requires ValidRun(INIT, before + [Arrive(c, source)] + after) && maxForwards != Some(0)
    requires Established(Run(INIT, before + [Arrive(c, source)] + after), c)
    requires Dispatch.SourceIP(ackFrom) == Dispatch.SourceIP(source)
    requires NoArrival(after, c) && NoneTouches(after, Dispatch.FsUri(Dispatch.SourceIP(source)))
    ensures var s := Run(INIT, before + [Arrive(c, source)] + after);
            var ack := HandleAck(s, c, ackFrom, maxForwards, cseq);
            ack.Forwarded? && ack.dest == L.AddressOf(AnswerOf(s, c))
  {
    var evs := before + [Arrive(c, source)] + after;
    RunConcat(INIT, before + [Arrive(c, source)], after);
    RunConcat(INIT, before, [Arrive(c, source)]);
    ReachableInv(before + [Arrive(c, source)]);
    var s0, s1 := Run(INIT, before), Run(INIT, before + [Arrive(c, source)]);
    assert [Arrive(c, source)][1..] == [] && s1 == Step(s0, Arrive(c, source));
    UntouchedStays(s1, after, source, c);
    AckGoesToTheAnswererIff(evs, c, ackFrom, maxForwards, cseq);
  }

  /** The ACK of FreeSWITCH reaches a trunk with the number of the INVITE the SBC authenticated, exactly
      when that number is at least FreeSWITCH's own (section 13.2.2.4 of RFC 3261). */
  lemma AckCarriesAuthenticatedNumberIff(evs: seq<Event>, c: CallId, source: Addr, maxForwards: Option<nat>,
                                         fs: nat, auth: nat)
    requires ValidRun(INIT, evs) && maxForwards != Some(0) && Established(Run(INIT, evs), c)
    requires var s := Run(INIT, evs);
             Dispatch.FromFS(s.targets, source) && Of(s, c).past.cseqs == L.CSeqs(Some(fs), Some(auth))
    requires fs < Fw.TWO32 && auth < Fw.TWO32
    ensures var ack := HandleAck(Run(INIT, evs), c, source, maxForwards, Some(fs));
            ack.Forwarded? && (ack.cseq == Some(auth) <==> auth >= fs)
  {
    EstablishedIsInTable(evs, c);
  }

  /** The call state about to be announced by a 2xx, on every path, field by field; and on the path to an
      agent the branch it names really answered with that 2xx, the first decision taken. */
  lemma AnnouncedStateIsRight(evs: seq<Event>, c: CallId)
    requires ValidRun(INIT, evs) && L.InviteIn(Of(Run(INIT, evs), c), L.Stored)
    ensures var s := Run(INIT, evs);
            var i := Of(s, c).invite.value;
            && (i.leg.ToUser? ==>
                  && i.fork.pc.Recorded? && i.fork.pc.who < |i.leg.contacts|
                  && 200 <= i.fork.pc.msg.code < 300 && L.FM.DecidedBy(i.fork.seen, i.fork.pc.who, i.fork.pc.msg))
            && (Of(s, c).call.Some? ==> c in s.t.calls && L.Records(i, s.t.calls[c]))
  {
    ReachableInv(evs);
    var s := Run(INIT, evs);
    assert L.Inv(Of(s, c)) && L.ForkInv(Of(s, c)) && Rows(s.t, c, Of(s, c));
  }

  /** The answer remembered for an established call is the far end of the path its INVITE took. */
  lemma AnswererIsTheWinningBranch(evs: seq<Event>, c: CallId)
    requires ValidRun(INIT, evs) && L.InviteIn(Of(Run(INIT, evs), c), L.Stored)
    ensures var i := Of(Run(INIT, evs), c).invite.value;
            && (i.leg.ToFS? ==> L.Answerer(i) == L.Answer(false, i.leg.fsAddr))
            && (i.leg.ToUser? ==>
                  && i.fork.pc.Recorded? && i.fork.pc.who < |i.leg.contacts| && L.WellFormedInvite(i)
                  && L.Answerer(i) == L.Answer(true, i.leg.contacts[i.fork.pc.who].address))
            && (i.leg.ToTrunk? ==> L.Answerer(i) == L.Answer(true, i.leg.dest))
  {
    ReachableInv(evs);
    var s := Run(INIT, evs);
    assert L.Inv(Of(s, c)) && L.ForkInv(Of(s, c));
  }

  /** The step that writes the entry: the URIs come from the messages, except for an agent, whose contact
      has its own; and the offset is how far the trunk's authenticated number runs ahead. */
  lemma RecordWritesTheEntry(evs: seq<Event>, c: CallId, fsURI: string, userURI: string, cseqs: L.CSeqs)
    requires ValidRun(INIT, evs) && Enabled(Run(INIT, evs), Handler(c, L.Record(fsURI, userURI, cseqs)))
    ensures var before := Of(Run(INIT, evs), c).invite.value;
            var s := Step(Run(INIT, evs), Handler(c, L.Record(fsURI, userURI, cseqs)));
            && c in s.t.calls && Of(s, c).invite.Some? && L.Records(Of(s, c).invite.value, s.t.calls[c])
            && Of(s, c).invite.value.leg == before.leg
            && s.t.calls[c].fsURI == fsURI
            && (!before.leg.ToUser? ==> s.t.calls[c].userURI == userURI)
            && s.t.calls[c].fsCSeqOffset ==
               (if before.leg.ToTrunk? && cseqs.own.Some? && cseqs.auth.Some? && cseqs.auth.value > cseqs.own.value
                then cseqs.auth.value - cseqs.own.value else 0)
            && forall d :: d != c ==> (d in s.t.calls <==> d in Run(INIT, evs).t.calls)
                                      && (d in s.t.calls ==> s.t.calls[d] == Run(INIT, evs).t.calls[d])
  {
    ReachableInv(evs);
    var s := Step(Run(INIT, evs), Handler(c, L.Record(fsURI, userURI, cseqs)));
    StepKeepsInv(Run(INIT, evs), Handler(c, L.Record(fsURI, userURI, cseqs)));
    assert L.Inv(Of(s, c)) && Rows(s.t, c, Of(s, c));
  }

  // ---------------------------------------------------------------------
  // The affinity index and the spoof cache
  // ---------------------------------------------------------------------

  /** The users and FreeSWITCH address a call or an INVITE in flight is pinned for. */
  function Claim(s: Sys, c: CallId): Option<(seq<Aor>, Addr)> {
    if c in s.t.calls then Some((s.t.calls[c].userAORs, s.t.calls[c].fsAddr))
    else if L.InFlight(Of(s, c)) then Some((L.Users(Of(s, c).invite.value.leg), Of(s, c).invite.value.leg.fsAddr))
    else None
  }

  predicate Claims(claim: (seq<Aor>, Addr), u: Aor, fs: Addr) {
    u in claim.0 && fs == claim.1 && fs != ""
  }

  predicate Claimed(s: Sys, c: CallId, u: Aor, fs: Addr) { Claim(s, c).Some? && Claims(Claim(s, c).value, u, fs) }

  /** Some BYE's cleanupCall has deleted the call, none has come to the affinity index, and the
      triple is the call's own. */
  ghost predicate PinOwed(s: Sys, c: CallId, u: Aor, fs: Addr) {
    && Claim(s, c).None? && !Of(s, c).past.pinsDropped
    && exists b :: L.ByeIn(Of(s, c), b, L.CallGone)
                   && Claims((Of(s, c).byes[b].state.userAORs, Of(s, c).byes[b].state.fsAddr), u, fs)
  }

  /** The affinity index is exact: in every reachable state its triples are those of the calls in the
      table, of the INVITEs in flight, and of the calls between the first two deletions of their cleanup. */
  lemma AffinityIsExact(evs: seq<Event>, u: Aor, c: CallId, fs: Addr)
    requires ValidRun(INIT, evs)
    ensures var s := Run(INIT, evs);
            && NoEmptyInner(s.t.affinity)
            && (Pin(s.t.affinity, u, c) == Some(fs) <==> Claimed(s, c, u, fs) || PinOwed(s, c, u, fs))
  {
    ReachableInv(evs);
    var s := Run(INIT, evs);
    var l := Of(s, c);
    assert L.Inv(l) && Rows(s.t, c, l);
    assert Pin(s.t.affinity, u, c) == if u in l.pins then Some(l.pins[u]) else None;
    if Claim(s, c).None? {
      OwedPins(l, u, fs);
    }
  }

  lemma OwedPins(l: L.Local, u: Aor, fs: Addr)
    requires L.Inv(l) && l.call.None? && !L.InFlight(l)
    ensures (u in l.pins && l.pins[u] == fs) <==>
              && !l.past.pinsDropped
              && exists b :: L.ByeIn(l, b, L.CallGone)
                             && Claims((l.byes[b].state.userAORs, l.byes[b].state.fsAddr), u, fs)
  {
    if L.PinsOwed(l) {
      var b :| L.ByeIn(l, b, L.CallGone) && l.pins == L.PinsOf(l.byes[b].state.userAORs, l.byes[b].state.fsAddr);
      assert (u in l.pins && l.pins[u] == fs) <==> Claims((l.byes[b].state.userAORs, l.byes[b].state.fsAddr), u, fs);
    }
  }

  /** What an INVITE in flight holds in the tables, path by path: the caller's users, or the agent, pinned to
      its FreeSWITCH; towards a trunk no pin, and the caller it spoofs cached with the trunk's number. */
  lemma InFlightRows(evs: seq<Event>, c: CallId, u: Aor)
    requires ValidRun(INIT, evs) && L.InFlight(Of(Run(INIT, evs), c))
    ensures var s := Run(INIT, evs);
            var leg := Of(s, c).invite.value.leg;
            && c !in s.t.calls
            && (leg.ToFS? ==> Pin(s.t.affinity, u, c) ==
                              if u in leg.users && leg.fsAddr != "" then Some(leg.fsAddr) else None)
            && (leg.ToUser? ==> Pin(s.t.affinity, u, c) ==
                                if u == leg.aor && leg.fsAddr != "" then Some(leg.fsAddr) else None)
            && (leg.ToTrunk? ==> Pin(s.t.affinity, u, c) == None)
            && (leg.ToTrunk? && leg.spoofedUser != "" ==>
                  && SpoofKey(c, leg.spoofedUser) in s.t.spoof
                  && s.t.spoof[SpoofKey(c, leg.spoofedUser)] == leg.number)
  {
    ReachableInv(evs);
    var s := Run(INIT, evs);
    var l := Of(s, c);
    assert L.Inv(l) && Rows(s.t, c, l);
    assert Pin(s.t.affinity, u, c) == if u in l.pins then Some(l.pins[u]) else None;
    assert l.invite.value.leg.ToTrunk? && l.invite.value.leg.spoofedUser != "" ==>
        l.invite.value.leg.spoofedUser in l.spoofs.Keys;
  }

  ghost predicate SpoofOwed(s: Sys, c: CallId, user: string) {
    && Claim(s, c).None? && !Of(s, c).past.spoofDropped && user != ""
    && exists b :: L.Cleaning(Of(s, c), b) && Of(s, c).byes[b].state.spoofedUser == user
  }

  /** The caller a live or in-flight call spoofs. */
  function Spoofing(s: Sys, c: CallId): string {
    if c in s.t.calls then s.t.calls[c].spoofedUser
    else if L.InFlight(Of(s, c)) then L.Spoofed(Of(s, c).invite.value.leg)
    else ""
  }

  /** So is the spoof cache: its entries are those of live and in-flight calls, and of calls whose
      cleanup has begun and has not come to it. */
  lemma SpoofCacheIsExact(evs: seq<Event>, c: CallId, user: string)
    requires ValidRun(INIT, evs) && ':' !in user
    ensures var s := Run(INIT, evs);
            SpoofKey(c, user) in s.t.spoof <==> (user != "" && user == Spoofing(s, c)) || SpoofOwed(s, c, user)
  {
    ReachableInv(evs);
    var s := Run(INIT, evs);
    var l := Of(s, c);
    assert L.Inv(l) && Rows(s.t, c, l);
    assert user in l.spoofs <==> user in l.spoofs.Keys;
    if Claim(s, c).None? {
      OwedSpoof(l, user);
    }
  }

  lemma OwedSpoof(l: L.Local, user: string)
    requires L.Inv(l) && l.call.None? && !L.InFlight(l)
    ensures user in l.spoofs.Keys <==>
              !l.past.spoofDropped && user != "" && exists b :: L.Cleaning(l, b) && l.byes[b].state.spoofedUser == user
  {
    if L.SpoofOwed(l) {
      var b :| L.Cleaning(l, b) && l.spoofs.Keys == L.SpoofsOf(l.byes[b].state.spoofedUser);
    }
  }

  /** The affinity index holds this triple. */
  ghost predicate Carries(s: Sys, c: CallId, u: Aor, fs: Addr) { Claimed(s, c, u, fs) || PinOwed(s, c, u, fs) }

  /** fs carries a call of the first of these users that has one. */
  ghost predicate PinnedFor(s: Sys, users: seq<Aor>, fs: Addr) {
    exists k, d :: && 0 <= k < |users| && Carries(s, d, users[k], fs)
                   && forall j, e, f :: 0 <= j < k ==> !Carries(s, e, users[j], f)
  }

  /** Whatever target is chosen for a list of users, in any reachable state: it carries a call of the
      first listed user that has one; it is one of the dispatcher's only if no listed user has one. */
  lemma ChosenTargetCarriesACall(evs: seq<Event>, users: seq<Aor>, target: string)
    requires ValidRun(INIT, evs)
    requires MayChoose(Run(INIT, evs).t.affinity, Run(INIT, evs).targets, users, target)
    ensures var s := Run(INIT, evs);
            || (exists fs :: PinnedFor(s, users, fs) && target == "sip:" + fs)
            || (target in s.targets && forall j, d, f :: 0 <= j < |users| ==> !Carries(s, d, users[j], f))
  {
    var s := Run(INIT, evs);
    var a := s.t.affinity;
    if k, c :| FirstPinned(a, users, k) && c in a[users[k]] && target == "sip:" + a[users[k]][c] {
      PinnedFollowsTheUsersCalls(evs, users, Some(a[users[k]][c]));
    } else {
      PinnedFollowsTheUsersCalls(evs, users, None);
    }
  }

  /** What the affinity index may give an INVITE for its users, in any reachable state: the FreeSWITCH of
      a call of the first of them that has one; nothing exactly if none has. */
  lemma PinnedFollowsTheUsersCalls(evs: seq<Event>, users: seq<Aor>, pinned: Option<Addr>)
    requires ValidRun(INIT, evs) && MayBePinned(Run(INIT, evs).t.affinity, users, pinned)
    ensures pinned.Some? ==> PinnedFor(Run(INIT, evs), users, pinned.value)
    ensures pinned.None? ==>
              forall j, e, f :: 0 <= j < |users| ==> !Carries(Run(INIT, evs), e, users[j], f)
  {
    var s := Run(INIT, evs);
    var a := s.t.affinity;
    forall j, d, f ensures 0 <= j < |users| && Carries(s, d, users[j], f) ==> users[j] in a && a[users[j]] != map[] {
      if 0 <= j < |users| && Carries(s, d, users[j], f) {
        AffinityIsExact(evs, users[j], d, f);
      }
    }
    if pinned.Some? {
      var k, c :| FirstPinned(a, users, k) && c in a[users[k]] && pinned.value == a[users[k]][c];
      AffinityIsExact(evs, users[k], c, pinned.value);
      assert Carries(s, c, users[k], pinned.value);
    } else {
      NoFirstPinned(a, users);
    }
  }

  /** All calls of a user are at one FreeSWITCH, and there is one. */
  ghost predicate AllAt(s: Sys, u: Aor, fs: Addr) {
    (exists d :: Carries(s, d, u, fs)) && forall d, f :: Carries(s, d, u, f) ==> f == fs
  }

  /** A user's next call is sure to share a FreeSWITCH with the ones before exactly when, at the moment the
      index is read for it, the user has calls and all of them are there. */
  lemma NextCallSharesIff(evs: seq<Event>, u: Aor, fs: Addr)
    requires ValidRun(INIT, evs)
    ensures (forall pinned :: MayBePinned(Run(INIT, evs).t.affinity, [u], pinned) ==> pinned == Some(fs))
            <==> AllAt(Run(INIT, evs), u, fs)
  {
    var s := Run(INIT, evs);
    if AllAt(s, u, fs) {
      forall pinned | MayBePinned(s.t.affinity, [u], pinned) ensures pinned == Some(fs) {
        PinnedWhenAllAt(evs, [u], fs, pinned);
      }
    } else {
      NotAllAt(evs, u, fs);
    }
  }

  lemma PinnedWhenAllAt(evs: seq<Event>, users: seq<Aor>, fs: Addr, pinned: Option<Addr>)
    requires ValidRun(INIT, evs) && MayBePinned(Run(INIT, evs).t.affinity, users, pinned)
    requires |users| == 1 && AllAt(Run(INIT, evs), users[0], fs)
    ensures pinned == Some(fs)
  {
    var s := Run(INIT, evs);
    PinnedFollowsTheUsersCalls(evs, users, pinned);
    var d :| Carries(s, d, users[0], fs);
    if pinned.Some? {
      var k, e :| 0 <= k < |users| && Carries(s, e, users[k], pinned.value);
      assert Carries(s, e, users[0], pinned.value);
    }
  }

  lemma NotAllAt(evs: seq<Event>, u: Aor, fs: Addr)
    requires ValidRun(INIT, evs) && !AllAt(Run(INIT, evs), u, fs)
    ensures exists pinned :: pinned != Some(fs) && MayBePinned(Run(INIT, evs).t.affinity, [u], pinned)
  {
    var s := Run(INIT, evs);
    var a := s.t.affinity;
    if d, f :| Carries(s, d, u, f) && f != fs {
      AffinityIsExact(evs, u, d, f);
      assert FirstPinned(a, [u], 0) && d in a[[u][0]] && a[[u][0]][d] == f;
      assert MayBePinned(a, [u], Some(f));
    } else {
      forall k ensures !FirstPinned(a, [u], k) {
        if FirstPinned(a, [u], k) {
          var c :| c in a[u];
          AffinityIsExact(evs, u, c, a[u][c]);
          assert Carries(s, c, u, a[u][c]);
        }
      }
      assert MayBePinned(a, [u], None);
    }
  }

  /** An INVITE read the index for its user while all the user's calls were at fs: the call is begun
      with fs, whatever happens in between. */
  lemma OverlappingCallsShare(evs: seq<Event>, c: CallId, u: Aor, fs: Addr, pinned: Option<Addr>,
                              after: seq<Event>, leg: L.Leg)
    requires ValidRun(INIT, evs)
    requires ValidRun(INIT, evs + [Look(c, [u], pinned)] + after + [Handler(c, L.Begin(leg))])
    requires AllAt(Run(INIT, evs), u, fs) && StripSip("sip:" + fs) == fs
    requires forall ev :: ev in after ==> !((ev.Arrive? || ev.Look?) && ev.call == c)
    ensures leg.ToFS? && leg.fsAddr == fs
    ensures var s := Run(INIT, evs + [Look(c, [u], pinned)] + after + [Handler(c, L.Begin(leg))]);
            Pin(s.t.affinity, u, c) == Some(fs)
  {
    var whole := evs + [Look(c, [u], pinned)] + after + [Handler(c, L.Begin(leg))];
    RunConcat(INIT, evs + [Look(c, [u], pinned)] + after, [Handler(c, L.Begin(leg))]);
    RunConcat(INIT, evs + [Look(c, [u], pinned)], after);
    RunConcat(INIT, evs, [Look(c, [u], pinned)]);
    var s0, s1 := Run(INIT, evs), Run(INIT, evs + [Look(c, [u], pinned)]);
    assert [Look(c, [u], pinned)][1..] == [] && s1 == Step(s0, Look(c, [u], pinned));
    NextCallSharesIff(evs, u, fs);
    assert s1.arrivals[c].choice == Chosen([u], fs) && !s1.arrivals[c].fromFS;
    ChoiceStays(s1, after, c);
    var s2 := Run(INIT, evs + [Look(c, [u], pinned)] + after);
    assert [Handler(c, L.Begin(leg))][1..] == [] && Run(INIT, whole) == Step(s2, Handler(c, L.Begin(leg)));
    ReachableInv(whole);
    BegunIsPinned(whole, c, u, leg);
  }

  lemma {:induction false} ChoiceStays(s: Sys, evs: seq<Event>, c: CallId)
    requires ValidRun(s, evs) && c in s.arrivals && s.arrivals[c].choice.Chosen?
    requires forall ev :: ev in evs ==> !((ev.Arrive? || ev.Look?) && ev.call == c)
    ensures c in Run(s, evs).arrivals && Run(s, evs).arrivals[c] == s.arrivals[c]
    decreases |evs|
  {
    if evs != [] {
      assert evs[0] in evs;
      assert Step(s, evs[0]).arrivals[c] == s.arrivals[c];
      ChoiceStays(Step(s, evs[0]), evs[1..], c);
    }
  }

  /** An INVITE in flight is pinned for its users. */
  lemma BegunIsPinned(evs: seq<Event>, c: CallId, u: Aor, leg: L.Leg)
    requires ValidRun(INIT, evs) && leg.ToFS? && leg.users == [u]
    requires var l := Of(Run(INIT, evs), c); L.InviteIn(l, L.Open) && l.invite.value.leg == leg
    ensures leg.fsAddr != "" ==> Pin(Run(INIT, evs).t.affinity, u, c) == Some(leg.fsAddr)
  {
    ReachableInv(evs);
    var s := Run(INIT, evs);
    assert L.Inv(Of(s, c)) && Rows(s.t, c, Of(s, c));
    AffinityIsExact(evs, u, c, leg.fsAddr);
  }

  lemma NoFirstPinned(a: Affinity, users: seq<Aor>)
    requires forall k :: !FirstPinned(a, users, k)
    ensures forall j :: 0 <= j < |users| ==> users[j] !in a || a[users[j]] == map[]
  {
    if users != [] {
      var rest := users[..|users| - 1];
      forall k ensures !FirstPinned(a, rest, k) {
        assert FirstPinned(a, rest, k) ==> FirstPinned(a, users, k);
      }
      NoFirstPinned(a, rest);
      assert forall j :: 0 <= j < |rest| ==> rest[j] == users[j];
      assert !FirstPinned(a, users, |users| - 1);
    }
  }

  /** No user with a live or in-flight call is left to the dispatcher. */
  lemma UserInCallIsPinned(evs: seq<Event>, u: Aor, c: CallId, fs: Addr)
    requires ValidRun(INIT, evs) && Claimed(Run(INIT, evs), c, u, fs)
    ensures var s := Run(INIT, evs); u in s.t.affinity && s.t.affinity[u] != map[]
  {
    AffinityIsExact(evs, u, c, fs);
  }

  /** Nothing is leaked: with every call ended and every handler returned, the three tables are empty. */
  lemma QuietSystemIsEmpty(evs: seq<Event>)
    requires ValidRun(INIT, evs) && forall c :: Quiet(Of(Run(INIT, evs), c))
    ensures Run(INIT, evs).t == INIT.t
  {
    ReachableInv(evs);
    var s := Run(INIT, evs);
    forall c, u
      ensures c !in s.t.calls && Pin(s.t.affinity, u, c) == None && (':' !in u ==> SpoofKey(c, u) !in s.t.spoof)
    {
      assert L.Inv(Of(s, c)) && Rows(s.t, c, Of(s, c)) && Quiet(Of(s, c));
    }
    forall u ensures u !in s.t.affinity {
      if u in s.t.affinity {
        InnerMapsPinSomeone(s.t.affinity, u);
      }
    }
    assert forall c :: c in s.t.calls ==> Pin(s.t.affinity, "", c) == None;
    assert s.t.calls == map[] && s.t.affinity == map[];
    assert s.t.spoof == map[];
  }

  lemma InnerMapsPinSomeone(a: Affinity, u: Aor)
    requires NoEmptyInner(a) && u in a
    ensures exists c :: Pin(a, u, c).Some?
  {
    var c :| c in a[u];
    assert Pin(a, u, c).Some?;
  }

  // ---------------------------------------------------------------------
  // Runs that meet the exceptions
  // ---------------------------------------------------------------------

  lemma {:induction false} Extend(s: Sys, evs: seq<Event>, ev: Event)
    requires ValidRun(s, evs) && Enabled(Run(s, evs), ev)
    ensures ValidRun(s, evs + [ev]) && Run(s, evs + [ev]) == Step(Run(s, evs), ev)
    decreases |evs|
  {
    if evs == [] {
      assert evs + [ev] == [ev] && [ev][1..] == [];
    } else {
      assert (evs + [ev])[1..] == evs[1..] + [ev];
      Extend(Step(s, evs[0]), evs[1..], ev);
    }
  }

  function TrunkLeg(ip: string): L.Leg { L.ToTrunk(ip + ":" + "5080", "trunk", "caller", "number") }

  /** An INVITE from FreeSWITCH at ip. */
  function FromTarget(ip: string, c: CallId): seq<Event> {
    [AddTarget(Dispatch.FsUri(ip)), Arrive(c, ip + ":" + "5080")]
  }

  /** One call from there to a trunk, answered. */
  function TrunkCall(ip: string, c: CallId): seq<Event> {
    FromTarget(ip, c) + [Handler(c, L.Begin(TrunkLeg(ip)))] + [Handler(c, L.Record("", "", L.CSeqs(Some(1), None)))]
    + [Handler(c, L.AnswerUpstream)]
  }

  function TrunkState(ip: string): CallState { CallState(ip + ":" + "5080", "", "trunk", "", [], false, "caller", 0) }

  lemma {:induction false} FromTargetRuns(ip: string, c: CallId)
    requires ':' !in ip && '[' !in ip && ']' !in ip
    ensures ValidRun(INIT, FromTarget(ip, c))
    ensures Run(INIT, FromTarget(ip, c)) ==
            INIT.(targets := [Dispatch.FsUri(ip)], arrivals := map[c := Arrival(ip + ":" + "5080", true, Unchosen)])
  {
    Dispatch.SourceIPOf(ip, "5080");
    Extend(INIT, [], AddTarget(Dispatch.FsUri(ip)));
    Extend(INIT, [AddTarget(Dispatch.FsUri(ip))], Arrive(c, ip + ":" + "5080"));
    assert [] + [AddTarget(Dispatch.FsUri(ip))] == [AddTarget(Dispatch.FsUri(ip))];
    assert [AddTarget(Dispatch.FsUri(ip))] + [Arrive(c, ip + ":" + "5080")] == FromTarget(ip, c);
  }

  lemma TrunkSteps(ip: string)
    ensures var l1 := L.Step(L.IDLE, L.Begin(TrunkLeg(ip)));
            && L.Enabled(L.IDLE, L.Begin(TrunkLeg(ip))) && L.InviteIn(l1, L.Open) && l1.invite.value.leg == TrunkLeg(ip)
            && l1.byes == map[] && l1.past == L.NO_HISTORY
  {
    assert ':' !in "caller";
  }

  lemma {:induction false} TrunkCallRuns(ip: string, c: CallId)
    requires ':' !in ip && '[' !in ip && ']' !in ip
    ensures ValidRun(INIT, TrunkCall(ip, c))
    ensures var s := Run(INIT, TrunkCall(ip, c));
            var l := Of(s, c);
            && s.targets == [Dispatch.FsUri(ip)] && s.arrivals == map[c := Arrival(ip + ":" + "5080", true, Unchosen)]
            && l.call == Some(TrunkState(ip)) && l.byes == map[] && L.InviteIn(l, L.Answered)
            && l.past == L.History(Some(L.Answer(true, "trunk")), L.CSeqs(Some(1), None), false, false, false)
  {
    var evs := FromTarget(ip, c);
    FromTargetRuns(ip, c);
    TrunkSteps(ip);
    Extend(INIT, evs, Handler(c, L.Begin(TrunkLeg(ip))));
    evs := evs + [Handler(c, L.Begin(TrunkLeg(ip)))];
    Extend(INIT, evs, Handler(c, L.Record("", "", L.CSeqs(Some(1), None))));
    evs := evs + [Handler(c, L.Record("", "", L.CSeqs(Some(1), None)))];
    Extend(INIT, evs, Handler(c, L.AnswerUpstream));
  }

  /** FreeSWITCH is removed from the dispatcher between its INVITE and its ACK: the ACK is sent back to it. */
  lemma RemovedFreeSwitchGetsItsAckBack(ip: string, c: CallId, cseq: Option<nat>)
    requires ':' !in ip && '[' !in ip && ']' !in ip
    ensures var evs := TrunkCall(ip, c) + [RemoveTarget(Dispatch.FsUri(ip))];
            && ValidRun(INIT, evs) && Established(Run(INIT, evs), c)
            && AnswerOf(Run(INIT, evs), c) == L.Answer(true, "trunk")
            && HandleAck(Run(INIT, evs), c, ip + ":" + "5080", None, cseq) == Forwarded(Some(ip + ":" + "5080"), cseq)
  {
    TrunkCallRuns(ip, c);
    Dispatch.SourceIPOf(ip, "5080");
    var remove := RemoveTarget(Dispatch.FsUri(ip));
    Extend(INIT, TrunkCall(ip, c), remove);
    Dispatch.WithoutIsSplice([Dispatch.FsUri(ip)], Dispatch.FsUri(ip), 0);
    var evs := TrunkCall(ip, c) + [remove];
    assert Run(INIT, evs).targets == [];
    AckGoesToTheAnswererIff(evs, c, ip + ":" + "5080", None, cseq);
  }

  /** The call is hung up, and its cleanup has deleted it from the call table only. */
  function HangUp(c: CallId, st: CallState): seq<Event> { [Handler(c, L.BeginBye(0, st)), Handler(c, L.DropCall(0))] }

  lemma {:induction false} HangUpRuns(evs: seq<Event>, c: CallId, st: CallState)
    requires ValidRun(INIT, evs) && Established(Run(INIT, evs), c) && Of(Run(INIT, evs), c).call == Some(st)
    requires Of(Run(INIT, evs), c).byes == map[]
    ensures ValidRun(INIT, evs + HangUp(c, st))
    ensures var s, s' := Run(INIT, evs), Run(INIT, evs + HangUp(c, st));
            && s'.t == s.t.(calls := s.t.calls - {c})
            && L.ByeIn(Of(s', c), 0, L.CallGone) && Of(s', c).byes[0].state == st
            && Of(s', c).call.None? && Of(s', c).invite == Of(s, c).invite
            && !Of(s', c).past.pinsDropped && !Of(s', c).past.spoofDropped
  {
    EstablishedIsInTable(evs, c);
    ReachableInv(evs);
    assert L.Inv(Of(Run(INIT, evs), c)) && Rows(Run(INIT, evs).t, c, Of(Run(INIT, evs), c));
    var bye, drop := Handler(c, L.BeginBye(0, st)), Handler(c, L.DropCall(0));
    Extend(INIT, evs, bye);
    Extend(INIT, evs + [bye], drop);
    assert evs + [bye] + [drop] == evs + HangUp(c, st);
  }

  /** Between the deletions of a cleanup a call that is in no table keeps its entries: a trunk call
      its spoofed caller. */
  lemma SpoofOutlivesTheCall(ip: string, c: CallId)
    requires ':' !in ip && '[' !in ip && ']' !in ip
    ensures var evs := TrunkCall(ip, c) + HangUp(c, TrunkState(ip));
            && ValidRun(INIT, evs)
            && Claim(Run(INIT, evs), c).None? && SpoofKey(c, "caller") in Run(INIT, evs).t.spoof
  {
    TrunkCallRuns(ip, c);
    HangUpRuns(TrunkCall(ip, c), c, TrunkState(ip));
    var evs := TrunkCall(ip, c) + HangUp(c, TrunkState(ip));
    ReachableInv(TrunkCall(ip, c));
    var l' := Of(Run(INIT, evs), c);
    assert L.Cleaning(l', 0) && l'.byes[0].state.spoofedUser == "caller";
    assert ':' !in "caller";
    SpoofCacheIsExact(evs, c, "caller");
  }

  function UserLeg(source: Addr, u: Aor, fs: Addr): L.Leg { L.ToFS([u], fs, source, false) }

  /** FreeSWITCH's address, as its target names it. */
  function FsAddr(ip: string): Addr { ip + ":" + "5070" }

  lemma FsAddrOf(ip: string)
    requires ':' !in ip && ip != "sips"
    ensures StripSip(Dispatch.FsUri(ip)) == FsAddr(ip)
  {
    assert Dispatch.FsUri(ip) == "sip:" + (ip + ":" + "5070");
    StripSipOf(ip, "5070");
  }

  /** An INVITE of user u from an address that is no target, assigned to FreeSWITCH at ip. */
  function Routed(source: Addr, c: CallId, u: Aor, ip: string): seq<Event> {
    [AddTarget(Dispatch.FsUri(ip)), Arrive(c, source)] + [Look(c, [u], None)] + [Assign(c, Dispatch.FsUri(ip))]
  }

  /** The call, answered. */
  function UserCall(source: Addr, c: CallId, u: Aor, ip: string): seq<Event> {
    Routed(source, c, u, ip) + [Handler(c, L.Begin(UserLeg(source, u, FsAddr(ip))))]
    + [Handler(c, L.Record("", "", L.CSeqs(Some(1), None)))] + [Handler(c, L.AnswerUpstream)]
  }

  function UserState(source: Addr, u: Aor, fs: Addr): CallState { CallState(fs, "", source, "", [u], false, "", 0) }

  lemma UserSteps(source: Addr, u: Aor, fs: Addr)
    ensures var l1 := L.Step(L.IDLE, L.Begin(UserLeg(source, u, fs)));
            && L.Enabled(L.IDLE, L.Begin(UserLeg(source, u, fs))) && L.InviteIn(l1, L.Open)
            && l1.invite.value.leg == UserLeg(source, u, fs) && l1.byes == map[] && l1.past == L.NO_HISTORY
  {
  }

  lemma {:induction false} RoutedRuns(source: Addr, c: CallId, u: Aor, ip: string)
    requires ':' !in ip && ip != "sips" && Dispatch.SourceIP(source) != ip
    ensures ValidRun(INIT, Routed(source, c, u, ip))
    ensures var s := Run(INIT, Routed(source, c, u, ip));
            && s.ledger == map[] && c in s.arrivals
            && s.arrivals[c] == Arrival(source, false, Chosen([u], FsAddr(ip)))
  {
    var uri := Dispatch.FsUri(ip);
    FsAddrOf(ip);
    ArrivedRuns(source, c, ip);
    var evs := [AddTarget(uri), Arrive(c, source)];
    Extend(INIT, evs, Look(c, [u], None));
    evs := evs + [Look(c, [u], None)];
    Extend(INIT, evs, Assign(c, uri));
  }

  lemma {:induction false} ArrivedRuns(source: Addr, c: CallId, ip: string)
    requires Dispatch.SourceIP(source) != ip
    ensures ValidRun(INIT, [AddTarget(Dispatch.FsUri(ip)), Arrive(c, source)])
    ensures Run(INIT, [AddTarget(Dispatch.FsUri(ip)), Arrive(c, source)]) ==
            INIT.(targets := [Dispatch.FsUri(ip)], arrivals := map[c := Arrival(source, false, Unchosen)])
  {
    var uri := Dispatch.FsUri(ip);
    Extend(INIT, [], AddTarget(uri));
    assert [] + [AddTarget(uri)] == [AddTarget(uri)];
    NoTarget(source, ip);
    Extend(INIT, [AddTarget(uri)], Arrive(c, source));
    assert [AddTarget(uri)] + [Arrive(c, source)] == [AddTarget(uri), Arrive(c, source)];
  }

  lemma NoTarget(source: Addr, ip: string)
    requires Dispatch.SourceIP(source) != ip
    ensures !Dispatch.FromFS([Dispatch.FsUri(ip)], source)
  {
    if Dispatch.FsUri(Dispatch.SourceIP(source)) == Dispatch.FsUri(ip) {
      Dispatch.FsUriIsInjective(Dispatch.SourceIP(source), ip);
    }
  }

  lemma {:induction false} UserCallRuns(source: Addr, c: CallId, u: Aor, ip: string)
    requires ':' !in ip && ip != "sips" && Dispatch.SourceIP(source) != ip
    ensures ValidRun(INIT, UserCall(source, c, u, ip))
    ensures var l := Of(Run(INIT, UserCall(source, c, u, ip)), c);
            && l.call == Some(UserState(source, u, FsAddr(ip))) && l.byes == map[]
            && l.past.answer == Some(L.Answer(false, FsAddr(ip))) && L.InviteIn(l, L.Answered) && !l.past.cleaned
  {
    var evs := Routed(source, c, u, ip);
    RoutedRuns(source, c, u, ip);
    UserSteps(source, u, FsAddr(ip));
    Extend(INIT, evs, Handler(c, L.Begin(UserLeg(source, u, FsAddr(ip)))));
    evs := evs + [Handler(c, L.Begin(UserLeg(source, u, FsAddr(ip))))];
    Extend(INIT, evs, Handler(c, L.Record("", "", L.CSeqs(Some(1), None))));
    evs := evs + [Handler(c, L.Record("", "", L.CSeqs(Some(1), None)))];
    Extend(INIT, evs, Handler(c, L.AnswerUpstream));
  }

  /** A user's call keeps its pin, so that the user's next call can still go to that FreeSWITCH. */
  lemma PinOutlivesTheCall(source: Addr, c: CallId, u: Aor, ip: string)
    requires ':' !in ip && ip != "sips" && Dispatch.SourceIP(source) != ip
    ensures var evs := UserCall(source, c, u, ip) + HangUp(c, UserState(source, u, FsAddr(ip)));
            && ValidRun(INIT, evs)
            && Claim(Run(INIT, evs), c).None? && Pin(Run(INIT, evs).t.affinity, u, c) == Some(FsAddr(ip))
  {
    var fs := FsAddr(ip);
    UserCallRuns(source, c, u, ip);
    HangUpRuns(UserCall(source, c, u, ip), c, UserState(source, u, fs));
    var evs := UserCall(source, c, u, ip) + HangUp(c, UserState(source, u, fs));
    ReachableInv(evs);
    var s := Run(INIT, evs);
    assert L.Inv(Of(s, c)) && Rows(s.t, c, Of(s, c));
    assert Claims((Of(s, c).byes[0].state.userAORs, Of(s, c).byes[0].state.fsAddr), u, fs);
    AffinityIsExact(evs, u, c, fs);
  }

  /** Two INVITEs of user u, for which the index is read before either is pinned. */
  function Race(source: Addr, c: CallId, d: CallId, u: Aor, ip: string, ip': string): seq<Event> {
    var uri, uri' := Dispatch.FsUri(ip), Dispatch.FsUri(ip');
    [AddTarget(uri), AddTarget(uri')] + [Arrive(c, source)] + [Arrive(d, source)]
    + [Look(c, [u], None)] + [Look(d, [u], None)] + [Assign(c, uri)] + [Assign(d, uri')]
  }

  predicate RaceInput(source: Addr, c: CallId, d: CallId, ip: string, ip': string) {
    && c != d && ip != ip' && ':' !in ip && ':' !in ip' && ip != "sips" && ip' != "sips"
    && Dispatch.SourceIP(source) != ip && Dispatch.SourceIP(source) != ip'
  }

  lemma {:induction false} TargetsRun(ip: string, ip': string)
    requires ip != ip'
    ensures ValidRun(INIT, [AddTarget(Dispatch.FsUri(ip)), AddTarget(Dispatch.FsUri(ip'))])
    ensures Run(INIT, [AddTarget(Dispatch.FsUri(ip)), AddTarget(Dispatch.FsUri(ip'))]) ==
            INIT.(targets := [Dispatch.FsUri(ip), Dispatch.FsUri(ip')])
  {
    var uri, uri' := Dispatch.FsUri(ip), Dispatch.FsUri(ip');
    if uri == uri' {
      Dispatch.FsUriIsInjective(ip, ip');
    }
    Extend(INIT, [], AddTarget(uri));
    assert [] + [AddTarget(uri)] == [AddTarget(uri)];
    Extend(INIT, [AddTarget(uri)], AddTarget(uri'));
    assert [AddTarget(uri)] + [AddTarget(uri')] == [AddTarget(uri), AddTarget(uri')];
  }

  lemma {:induction false} RaceRuns(source: Addr, c: CallId, d: CallId, u: Aor, ip: string, ip': string)
    requires RaceInput(source, c, d, ip, ip')
    ensures ValidRun(INIT, Race(source, c, d, u, ip, ip'))
    ensures var s := Run(INIT, Race(source, c, d, u, ip, ip'));
            && s.ledger == map[] && c in s.arrivals && d in s.arrivals
            && s.arrivals[c] == Arrival(source, false, Chosen([u], FsAddr(ip)))
            && s.arrivals[d] == Arrival(source, false, Chosen([u], FsAddr(ip')))
  {
    var uri, uri' := Dispatch.FsUri(ip), Dispatch.FsUri(ip');
    FsAddrOf(ip);
    FsAddrOf(ip');
    TargetsRun(ip, ip');
    NoTarget(source, ip);
    NoTarget(source, ip');
    var evs := [AddTarget(uri), AddTarget(uri')];
    Extend(INIT, evs, Arrive(c, source));
    evs := evs + [Arrive(c, source)];
    Extend(INIT, evs, Arrive(d, source));
    evs := evs + [Arrive(d, source)];
    Extend(INIT, evs, Look(c, [u], None));
    evs := evs + [Look(c, [u], None)];
    Extend(INIT, evs, Look(d, [u], None));
    evs := evs + [Look(d, [u], None)];
    Extend(INIT, evs, Assign(c, uri));
    evs := evs + [Assign(c, uri)];
    Extend(INIT, evs, Assign(d, uri'));
  }

  /** Then the user's two overlapping calls are pinned to two FreeSWITCH instances. */
  lemma {:induction false} CallsMadeAtOnceCanSplit(source: Addr, c: CallId, d: CallId, u: Aor, ip: string, ip': string)
    requires RaceInput(source, c, d, ip, ip')
    ensures var evs := Race(source, c, d, u, ip, ip') + [Handler(c, L.Begin(UserLeg(source, u, FsAddr(ip))))]
                       + [Handler(d, L.Begin(UserLeg(source, u, FsAddr(ip'))))];
            && ValidRun(INIT, evs)
            && Pin(Run(INIT, evs).t.affinity, u, c) == Some(FsAddr(ip))
            && Pin(Run(INIT, evs).t.affinity, u, d) == Some(FsAddr(ip'))
  {
    var leg, leg' := UserLeg(source, u, FsAddr(ip)), UserLeg(source, u, FsAddr(ip'));
    RaceRuns(source, c, d, u, ip, ip');
    UserSteps(source, u, FsAddr(ip));
    UserSteps(source, u, FsAddr(ip'));
    var evs := Race(source, c, d, u, ip, ip');
    Extend(INIT, evs, Handler(c, L.Begin(leg)));
    evs := evs + [Handler(c, L.Begin(leg))];
    Extend(INIT, evs, Handler(d, L.Begin(leg')));
    evs := evs + [Handler(d, L.Begin(leg'))];
    BegunIsPinned(evs, c, u, leg);
    BegunIsPinned(evs, d, u, leg');
  }
}
