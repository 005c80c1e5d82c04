/** All calls together: the shared tables, and every interleaving of every
    call's steps over them. */
module CallMachine {
  import opened Text
  import opened CallTables
  import Dispatch
  import L = CallLocal

  datatype Tables = Tables(calls: map<CallId, CallState>, affinity: Affinity, spoof: map<string, string>)

  /** How far selectTargetForUsers is for an INVITE: the affinity index not read yet, read in vain, or
      a FreeSWITCH chosen. */
  datatype Choice = Unchosen | Unpinned(users: seq<Aor>) | Chosen(users: seq<Aor>, fsAddr: Addr)

  /** An INVITE as it came in: its source address, whether that was a dispatcher target's, and the
      FreeSWITCH chosen for it. */
  datatype Arrival = Arrival(source: Addr, fromFS: bool, choice: Choice)

  /** The tables, the dispatcher's targets, for each Call-ID where its handlers are, and how
      its INVITE came in. */
  datatype Sys = Sys(t: Tables, targets: seq<string>, ledger: map<CallId, L.Local>, arrivals: map<CallId, Arrival>)

  const INIT := Sys(Tables(map[], map[], map[]), [], map[], map[])

  function Of(s: Sys, c: CallId): L.Local { if c in s.ledger then s.ledger[c] else L.IDLE }

  /** A step of one call's handlers, an INVITE that comes in, the two halves of the choice of its
      FreeSWITCH (the affinity index is read under one lock, the dispatcher asked under another), or a
      change of the targets. */
  datatype Event =
    | Handler(call: CallId, e: L.Event)
    | Arrive(call: CallId, source: Addr)
    | Look(call: CallId, users: seq<Aor>, pinned: Option<Addr>)
    | Assign(call: CallId, target: string)
    | AddTarget(uri: string)
    | RemoveTarget(uri: string)

  ghost predicate LocalsOk(s: Sys) { forall c :: L.Inv(Of(s, c)) && L.ForkInv(Of(s, c)) }

  /** Where an INVITE on this path comes from. */
  function Source(leg: L.Leg): Addr { if leg.ToFS? then leg.userAddr else leg.fsAddr }

  /** handleInvite chose the path when the INVITE came in. */
  predicate Matches(leg: L.Leg, a: Arrival) {
    && leg.ToFS? == !a.fromFS && Source(leg) == a.source
    && (leg.ToFS? ==> a.choice == Chosen(leg.users, leg.fsAddr))
  }

  predicate Quiet(l: L.Local) { l.invite.None? && l.call.None? && l.byes == map[] }

  /** A BYE handler starts from the entry it finds in the call table. */
  ghost predicate Enabled(s: Sys, ev: Event) {
    match ev
    case Handler(c, e) =>
      && L.Ready(Of(s, c), e) && L.Enabled(Of(s, c), e)
      && (e.BeginBye? ==> c in s.t.calls && e.state == s.t.calls[c])
      && (e.Begin? ==> c in s.arrivals && Matches(e.leg, s.arrivals[c]))
    case Arrive(c, _) => Quiet(Of(s, c))
    case Look(c, users, pinned) =>
      && Quiet(Of(s, c)) && c in s.arrivals && !s.arrivals[c].fromFS && MayBePinned(s.t.affinity, users, pinned)
    case Assign(c, target) =>
      Quiet(Of(s, c)) && c in s.arrivals && s.arrivals[c].choice.Unpinned? && target in s.targets
    case AddTarget(_) => true
    case RemoveTarget(_) => true
  }

  /** What the step does to the shared tables, as the handlers' own code does it. */
  function Update(t: Tables, c: CallId, l: L.Local, e: L.Event): Tables
    requires L.Ready(l, e)
  {
    match e
    case Begin(leg) =>
      if leg.ToTrunk? then
        if leg.spoofedUser == "" then t else t.(spoof := t.spoof[SpoofKey(c, leg.spoofedUser) := leg.number])
      else t.(affinity := Saved(t.affinity, c, leg.fsAddr, L.Users(leg)))
    case Record(fsURI, userURI, cseqs) =>
      t.(calls := t.calls[c := L.StateFor(l.invite.value, fsURI, userURI, cseqs)])
    case Close =>
      var leg := l.invite.value.leg;
      if leg.ToTrunk? then
        if leg.spoofedUser == "" then t else t.(spoof := t.spoof - {SpoofKey(c, leg.spoofedUser)})
      else t.(affinity := Dropped(t.affinity, c, L.Users(leg)))
    case DropCall(_) => t.(calls := t.calls - {c})
    case DropAffinity(b) => t.(affinity := Dropped(t.affinity, c, l.byes[b].state.userAORs))
    case DropSpoof(b) =>
      var user := l.byes[b].state.spoofedUser;
      if user == "" then t else t.(spoof := t.spoof - {SpoofKey(c, user)})
    case _ => t
  }

  function HandlerStep(s: Sys, c: CallId, e: L.Event): Sys
    requires L.Ready(Of(s, c), e)
  {
    s.(t := Update(s.t, c, Of(s, c), e), ledger := s.ledger[c := L.Step(Of(s, c), e)])
  }

  function Step(s: Sys, ev: Event): Sys
    requires ev.Handler? ==> L.Ready(Of(s, ev.call), ev.e)
    requires ev.Look? ==> ev.call in s.arrivals
    requires ev.Assign? ==> ev.call in s.arrivals && s.arrivals[ev.call].choice.Unpinned?
  {
    match ev
    case Handler(c, e) => HandlerStep(s, c, e)
    case Arrive(c, source) =>
      s.(arrivals := s.arrivals[c := Arrival(source, Dispatch.FromFS(s.targets, source), Unchosen)])
    case Look(c, users, pinned) =>
      var choice := if pinned.Some? then Chosen(users, StripSip("sip:" + pinned.value)) else Unpinned(users);
      s.(arrivals := s.arrivals[c := s.arrivals[c].(choice := choice)])
    case Assign(c, target) =>
      s.(arrivals := s.arrivals[c := s.arrivals[c].(choice := Chosen(s.arrivals[c].choice.users, StripSip(target)))])
    case AddTarget(uri) => s.(targets := Dispatch.Added(s.targets, uri))
    case RemoveTarget(uri) => s.(targets := Dispatch.Without(s.targets, uri))
  }

  // ---------------------------------------------------------------------
  // The tables are exactly the calls' rows
  // ---------------------------------------------------------------------

  predicate CallRow(t: Tables, c: CallId, l: L.Local) {
    if l.call.Some? then c in t.calls && t.calls[c] == l.call.value else c !in t.calls
  }

  ghost predicate PinRows(t: Tables, c: CallId, l: L.Local) {
    forall u :: Pin(t.affinity, u, c) == if u in l.pins then Some(l.pins[u]) else None
  }

  ghost predicate SpoofRows(t: Tables, c: CallId, l: L.Local) {
    forall u | ':' !in u :: (SpoofKey(c, u) in t.spoof <==> u in l.spoofs)
                            && (u in l.spoofs ==> t.spoof[SpoofKey(c, u)] == l.spoofs[u])
  }

  /** No key of the spoof cache is unaccounted for. */
  ghost predicate SpoofKeysOwned(t: Tables) {
    forall k :: k in t.spoof ==> exists c, u :: ':' !in u && k == SpoofKey(c, u)
  }

  ghost predicate Rows(t: Tables, c: CallId, l: L.Local) {
    CallRow(t, c, l) && PinRows(t, c, l) && SpoofRows(t, c, l)
  }

  /** What a live call's entry keeps of its INVITE's source. */
  predicate Remembers(st: CallState, a: Arrival) { (if a.fromFS then st.fsAddr else st.userAddr) == a.source }

  predicate ArrivalOk(arrivals: map<CallId, Arrival>, c: CallId, l: L.Local) {
    && (l.invite.Some? ==> c in arrivals && Matches(l.invite.value.leg, arrivals[c]))
    && (l.call.Some? ==> c in arrivals && Remembers(l.call.value, arrivals[c]))
    && (l.call.Some? && l.past.answer.Some? ==> l.past.answer.value.fromFS == arrivals[c].fromFS)
  }

  ghost predicate Inv(s: Sys) {
    && LocalsOk(s) && Dispatch.NoDuplicates(s.targets)
    && (forall c :: ArrivalOk(s.arrivals, c, Of(s, c)))
    && NoEmptyInner(s.t.affinity) && SpoofKeysOwned(s.t)
    && forall c :: Rows(s.t, c, Of(s, c))
  }

  lemma AffinityStep(t: Tables, c: CallId, l: L.Local, e: L.Event)
    requires L.Ready(l, e) && NoEmptyInner(t.affinity) && PinRows(t, c, l) && (e.Begin? ==> l.pins == map[])
    ensures NoEmptyInner(Update(t, c, l, e).affinity)
    ensures forall u :: Pin(Update(t, c, l, e).affinity, u, c) ==
                        if u in L.PinsAfter(l, e) then Some(L.PinsAfter(l, e)[u]) else None
    ensures forall u, d :: d != c ==> Pin(Update(t, c, l, e).affinity, u, d) == Pin(t.affinity, u, d)
  {
    match e {
      case Begin(leg) =>
        SavedPins(t.affinity, c, leg.fsAddr, L.Users(leg));
      case Close =>
        DroppedPins(t.affinity, c, L.Users(l.invite.value.leg));
      case DropAffinity(b) =>
        DroppedPins(t.affinity, c, l.byes[b].state.userAORs);
      case _ =>
    }
  }

  /** The row of the spoof cache an event adds or deletes; "" for none. */
  function SpoofTouched(l: L.Local, e: L.Event): string
    requires L.Ready(l, e)
  {
    match e
    case Begin(leg) => L.Spoofed(leg)
    case Close => L.Spoofed(l.invite.value.leg)
    case DropSpoof(b) => l.byes[b].state.spoofedUser
    case _ => ""
  }

  /** Adding or deleting one call's key touches no other row. */
  lemma SpoofStep(t: Tables, c: CallId, l: L.Local, e: L.Event)
    requires L.Ready(l, e) && SpoofRows(t, c, l) && (e.Begin? ==> l.spoofs == map[])
    requires ':' !in SpoofTouched(l, e)
    ensures forall u | ':' !in u ::
              (SpoofKey(c, u) in Update(t, c, l, e).spoof <==> u in L.SpoofsAfter(l, e))
              && (u in L.SpoofsAfter(l, e) ==> Update(t, c, l, e).spoof[SpoofKey(c, u)] == L.SpoofsAfter(l, e)[u])
    ensures forall d, u | d != c && ':' !in u ::
              (SpoofKey(d, u) in Update(t, c, l, e).spoof <==> SpoofKey(d, u) in t.spoof)
              && (SpoofKey(d, u) in t.spoof ==> Update(t, c, l, e).spoof[SpoofKey(d, u)] == t.spoof[SpoofKey(d, u)])
  {
    var user := SpoofTouched(l, e);
    forall d, u | ':' !in u && SpoofKey(d, u) == SpoofKey(c, user) ensures d == c && u == user {
      SpoofKeyIsInjective(d, u, c, user);
    }
  }

  lemma SpoofKeysStayOwned(t: Tables, c: CallId, l: L.Local, e: L.Event)
    requires L.Ready(l, e) && SpoofKeysOwned(t) && ':' !in SpoofTouched(l, e)
    ensures SpoofKeysOwned(Update(t, c, l, e))
  {
  }

  /** What Inv of one call says about the events it can take part in. */
  lemma LocalFacts(l: L.Local, e: L.Event)
    requires L.Inv(l) && L.Enabled(l, e)
    ensures L.Ready(l, e) && ':' !in SpoofTouched(l, e)
    ensures e.Begin? ==> l.pins == map[] && l.spoofs == map[]
    ensures e.BeginBye? ==> l.call == Some(e.state)
  {
  }

  lemma RowsAfter(t: Tables, c: CallId, l: L.Local, e: L.Event)
    requires L.Ready(l, e) && Rows(t, c, l) && NoEmptyInner(t.affinity)
    requires ':' !in SpoofTouched(l, e) && (e.Begin? ==> l.pins == map[] && l.spoofs == map[] && l.call.None?)
    ensures NoEmptyInner(Update(t, c, l, e).affinity)
    ensures Rows(Update(t, c, l, e), c, L.Step(l, e))
  {
    AffinityStep(t, c, l, e);
    SpoofStep(t, c, l, e);
  }

  lemma OtherRows(t: Tables, c: CallId, l: L.Local, e: L.Event, d: CallId, m: L.Local)
    requires L.Ready(l, e) && Rows(t, c, l) && Rows(t, d, m) && d != c && NoEmptyInner(t.affinity)
    requires ':' !in SpoofTouched(l, e) && (e.Begin? ==> l.pins == map[] && l.spoofs == map[])
    ensures Rows(Update(t, c, l, e), d, m)
  {
    AffinityStep(t, c, l, e);
    SpoofStep(t, c, l, e);
  }

  lemma LocalsStayOk(s: Sys, c: CallId, e: L.Event)
    requires LocalsOk(s) && L.Enabled(Of(s, c), e) && L.Ready(Of(s, c), e)
    ensures LocalsOk(HandlerStep(s, c, e))
  {
    var l' := L.Step(Of(s, c), e);
    L.StepKeepsInv(Of(s, c), e);
    LedgerUpdate(s, HandlerStep(s, c, e), c, l');
  }

  lemma LedgerUpdate(s: Sys, s': Sys, c: CallId, l': L.Local)
    requires LocalsOk(s) && s'.ledger == s.ledger[c := l'] && L.Inv(l') && L.ForkInv(l')
    ensures LocalsOk(s')
  {
    forall d ensures L.Inv(Of(s', d)) && L.ForkInv(Of(s', d)) {
      assert Of(s', d) == if d == c then l' else Of(s, d);
    }
  }

  lemma ArrivalStaysOk(arrivals: map<CallId, Arrival>, c: CallId, l: L.Local, e: L.Event)
    requires L.Inv(l) && ArrivalOk(arrivals, c, l) && L.Ready(l, e) && L.Enabled(l, e)
    requires e.Begin? ==> c in arrivals && Matches(e.leg, arrivals[c])
    ensures ArrivalOk(arrivals, c, L.Step(l, e))
  {
  }

  lemma HandlerKeepsInv(s: Sys, c: CallId, e: L.Event)
    requires Inv(s) && Enabled(s, Handler(c, e))
    ensures Inv(HandlerStep(s, c, e))
  {
    var l, s' := Of(s, c), HandlerStep(s, c, e);
    assert L.Inv(l) && Rows(s.t, c, l) && ArrivalOk(s.arrivals, c, l);
    LocalFacts(l, e);
    LocalsStayOk(s, c, e);
    RowsAfter(s.t, c, l, e);
    SpoofKeysStayOwned(s.t, c, l, e);
    ArrivalStaysOk(s.arrivals, c, l, e);
    forall d ensures Rows(s'.t, d, Of(s', d)) && ArrivalOk(s'.arrivals, d, Of(s', d)) {
      if d != c {
        assert Rows(s.t, d, Of(s, d)) && ArrivalOk(s.arrivals, d, Of(s, d)) && Of(s', d) == Of(s, d);
        OtherRows(s.t, c, l, e, d, Of(s, d));
      }
    }
  }

  /** No step of any handler of any call, no INVITE coming in and no change of the targets breaks
      the agreement of the tables. */
  lemma {:induction false} StepKeepsInv(s: Sys, ev: Event)
    requires Inv(s) && Enabled(s, ev)
    ensures Inv(Step(s, ev))
  {
    match ev {
      case Handler(c, e) => HandlerKeepsInv(s, c, e);
      case Arrive(c, _) => ArrivalKeepsInv(s, ev, c);
      case Look(c, _, _) => ArrivalKeepsInv(s, ev, c);
      case Assign(c, _) => ArrivalKeepsInv(s, ev, c);
      case AddTarget(uri) => TargetsKeepInv(s, ev);
      case RemoveTarget(uri) => TargetsKeepInv(s, ev);
    }
  }

  lemma ArrivalKeepsInv(s: Sys, ev: Event, c: CallId)
    requires Inv(s) && Enabled(s, ev) && (ev.Arrive? || ev.Look? || ev.Assign?) && ev.call == c
    ensures Inv(Step(s, ev))
  {
    var s' := Step(s, ev);
    forall d
      ensures ArrivalOk(s'.arrivals, d, Of(s', d)) && Rows(s'.t, d, Of(s', d))
      ensures L.Inv(Of(s', d)) && L.ForkInv(Of(s', d))
    {
      assert ArrivalOk(s.arrivals, d, Of(s, d)) && Rows(s.t, d, Of(s, d)) && Of(s', d) == Of(s, d);
    }
  }

  lemma TargetsKeepInv(s: Sys, ev: Event)
    requires Inv(s) && (ev.AddTarget? || ev.RemoveTarget?)
    ensures Inv(Step(s, ev))
  {
    var s' := Step(s, ev);
    if ev.AddTarget? {
      Dispatch.AddedKeepsNoDuplicates(s.targets, ev.uri);
    } else {
      Dispatch.WithoutKeepsNoDuplicates(s.targets, ev.uri);
    }
    forall d
      ensures ArrivalOk(s'.arrivals, d, Of(s', d)) && Rows(s'.t, d, Of(s', d))
      ensures L.Inv(Of(s', d)) && L.ForkInv(Of(s', d))
    {
      assert ArrivalOk(s.arrivals, d, Of(s, d)) && Rows(s.t, d, Of(s, d)) && Of(s', d) == Of(s, d);
    }
  }

  ghost predicate ValidRun(s: Sys, evs: seq<Event>)
    decreases |evs|
  {
    evs == [] || (Enabled(s, evs[0]) && ValidRun(Step(s, evs[0]), evs[1..]))
  }

  function Run(s: Sys, evs: seq<Event>): Sys
    requires ValidRun(s, evs)
    decreases |evs|
  {
    if evs == [] then s else Run(Step(s, evs[0]), evs[1..])
  }

  lemma {:induction false} RunKeepsInv(s: Sys, evs: seq<Event>)
    requires Inv(s) && ValidRun(s, evs)
    ensures Inv(Run(s, evs))
    decreases |evs|
  {
    if evs != [] {
      StepKeepsInv(s, evs[0]);
      RunKeepsInv(Step(s, evs[0]), evs[1..]);
    }
  }

  lemma ReachableInv(evs: seq<Event>)
    requires ValidRun(INIT, evs)
    ensures Inv(Run(INIT, evs))
  {
    assert L.Inv(L.IDLE) && Inv(INIT);
    RunKeepsInv(INIT, evs);
  }
}
