/** One Call-ID's part of the call protocol: the handler of its initial INVITE,
    the handlers of its BYEs, and what they owe the shared tables. Each event is
    one atomic step: a lock held, a message received or a message sent. */
module CallLocal {
  import opened Text
  import opened CallTables
  import F = Fork
  import FM = ForkMachine
  import Fw = Forwarding

  datatype Contact = Contact(address: Addr, uri: string, isWebRTC: bool)

  /** The three INVITE paths. */
  datatype Leg =
    | ToFS(users: seq<Aor>, fsAddr: Addr, userAddr: Addr, isWebRTC: bool)
    | ToUser(aor: Aor, fsAddr: Addr, contacts: seq<Contact>)
    | ToTrunk(fsAddr: Addr, dest: Addr, spoofedUser: string, number: string)

  /** Open: relaying. Stored: 2xx received, call table written. Answered: 2xx sent
      upstream. Closing: not established, deferred deletions still to run. */
  datatype Phase = Open | Stored | Answered | Closing

  datatype Invite = Invite(leg: Leg, phase: Phase, fork: FM.Fanout)

  /** How far a BYE handler is: relaying, then cleanupCall's three deletions. */
  datatype ByePhase = Relaying | CallGone | AffinityGone

  datatype Bye = Bye(state: CallState, phase: ByePhase)

  /** Who answered the INVITE with the 2xx sent upstream; fromFS: FreeSWITCH sent
      the INVITE, so its ACK comes from there. */
  datatype Answer = Answer(fromFS: bool, addr: Addr)

  /** The CSeq number FreeSWITCH's INVITE came with, and the authenticated one's after a
      trunk's digest challenge. */
  datatype CSeqs = CSeqs(own: Option<nat>, auth: Option<nat>)

  /** What happened to the call since its INVITE began: the answer sent upstream, the
      numbers it was recorded with, and which of cleanupCall's deletions some BYE has done. */
  datatype History = History(answer: Option<Answer>, cseqs: CSeqs, cleaned: bool, pinsDropped: bool, spoofDropped: bool)

  const NO_HISTORY := History(None, CSeqs(None, None), false, false, false)

  /** `pins` and `spoofs` are this call's rows of the affinity index and the spoof
      cache; `call` its row of the call table. */
  datatype Local = Local(invite: Option<Invite>, call: Option<CallState>, byes: map<nat, Bye>,
                         pins: map<Aor, Addr>, spoofs: map<string, string>, past: History)

  const IDLE := Local(None, None, map[], map[], map[], NO_HISTORY)

  datatype Event =
    | Begin(leg: Leg)
    | Branch(e: FM.Event)
    | Record(fsURI: string, userURI: string, cseqs: CSeqs)
    | AnswerUpstream
    | Finish
    | Fail
    | Close
    | BeginBye(b: nat, state: CallState)
    | EndBye(b: nat)
    | DropCall(b: nat)
    | DropAffinity(b: nat)
    | DropSpoof(b: nat)

  function Users(leg: Leg): seq<Aor> {
    match leg
    case ToFS(us, _, _, _) => us
    case ToUser(aor, _, _) => [aor]
    case ToTrunk(_, _, _, _) => []
  }

  function Spoofed(leg: Leg): string { if leg.ToTrunk? then leg.spoofedUser else "" }

  function PinsOf(users: seq<Aor>, fs: Addr): map<Aor, Addr> {
    if fs == "" then map[] else map u | u in users :: fs
  }

  function SpoofsOf(user: string): set<string> { if user == "" then {} else {user} }

  /** The branch whose 2xx the handler took. */
  function Winner(i: Invite): nat {
    if i.fork.pc.Won? || i.fork.pc.Recorded? then i.fork.pc.who else 0
  }

  predicate WellFormedInvite(i: Invite) {
    i.leg.ToUser? ==> i.leg.contacts != [] && |i.leg.contacts| == |i.fork.branches| && Winner(i) < |i.leg.contacts|
  }

  /** Only the path to a trunk answers a digest challenge. */
  function Numbers(leg: Leg, cseqs: CSeqs): CSeqs { if leg.ToTrunk? then cseqs else cseqs.(auth := None) }

  /** The call state an INVITE handler writes before it relays the 2xx. */
  function StateFor(i: Invite, fsURI: string, userURI: string, cseqs: CSeqs): CallState
    requires WellFormedInvite(i)
  {
    match i.leg
    case ToFS(us, fs, ua, w) => CallState(fs, fsURI, ua, userURI, us, w, "", 0)
    case ToUser(aor, fs, cs) =>
      var c := cs[Winner(i)];
      CallState(fs, fsURI, c.address, c.uri, [aor], c.isWebRTC, "", 0)
    case ToTrunk(fs, dest, user, _) =>
      CallState(fs, fsURI, dest, userURI, [], false, user, Fw.DigestOffset(cseqs.own, cseqs.auth))
  }

  /** Who the 2xx came from: the contact of the branch that answered, FreeSWITCH or the trunk. */
  function Answerer(i: Invite): Answer
    requires WellFormedInvite(i)
  {
    match i.leg
    case ToFS(_, fs, _, _) => Answer(false, fs)
    case ToUser(_, _, cs) => Answer(true, cs[Winner(i)].address)
    case ToTrunk(_, dest, _, _) => Answer(true, dest)
  }

  /** Where handleAck and relayInDialog send a request: to the call's far end when
      it comes from FreeSWITCH, unless no address is known, else to FreeSWITCH. */
  function Destination(state: CallState, isFS: bool): Option<Addr> {
    if !isFS then Some(state.fsAddr)
    else if state.userAddr != "" then Some(state.userAddr)
    else None
  }

  function AddressOf(a: Answer): Option<Addr> {
    if a.fromFS && a.addr == "" then None else Some(a.addr)
  }

  // ---------------------------------------------------------------------
  // The steps
  // ---------------------------------------------------------------------

  predicate InviteIn(l: Local, p: Phase) { l.invite.Some? && l.invite.value.phase == p }

  predicate ByeIn(l: Local, b: nat, p: ByePhase) { b in l.byes && l.byes[b].phase == p }

  /** Begin asks that the Call-ID is not live (section 8.1.1.4 of RFC 3261) and that
      a spoofed caller is a SIP user part. */
  predicate Enabled(l: Local, e: Event) {
    match e
    case Begin(leg) =>
      && l.invite.None? && l.call.None? && l.byes == map[]
      && (leg.ToUser? ==> leg.contacts != []) && ':' !in Spoofed(leg)
    case Branch(fe) =>
      && l.invite.Some? && l.invite.value.leg.ToUser? && !fe.Record? && !fe.AnswerUpstream?
      && FM.Enabled(l.invite.value.fork, fe)
    case Record(_, _, _) =>
      InviteIn(l, Open) && (l.invite.value.leg.ToUser? ==> FM.Enabled(l.invite.value.fork, FM.Record))
    case AnswerUpstream => InviteIn(l, Stored)
    case Finish => InviteIn(l, Answered) && (l.invite.value.leg.ToUser? ==> l.invite.value.fork.pc.Returned?)
    case Fail => InviteIn(l, Open) && (l.invite.value.leg.ToUser? ==> l.invite.value.fork.pc.Returned?)
    case Close => InviteIn(l, Closing)
    case BeginBye(b, st) => l.call == Some(st) && b !in l.byes
    case EndBye(b) => ByeIn(l, b, Relaying)
    case DropCall(b) => ByeIn(l, b, Relaying)
    case DropAffinity(b) => ByeIn(l, b, CallGone)
    case DropSpoof(b) => ByeIn(l, b, AffinityGone)
  }

  function BeginInvite(leg: Leg): Invite {
    Invite(leg, Open, FM.Init(if leg.ToUser? then |leg.contacts| else 0))
  }

  /** What an event needs in order to be carried out at all. */
  predicate Ready(l: Local, e: Event) {
    match e
    case Record(_, _, _) => l.invite.Some? && WellFormedInvite(l.invite.value)
    case AnswerUpstream => l.invite.Some? && WellFormedInvite(l.invite.value)
    case Branch(fe) => l.invite.Some? && FM.Enabled(l.invite.value.fork, fe)
    case Fail => l.invite.Some?
    case Close => l.invite.Some?
    case DropCall(b) => b in l.byes
    case DropAffinity(b) => b in l.byes
    case DropSpoof(b) => b in l.byes
    case _ => true
  }

  function InviteAfter(l: Local, e: Event): Option<Invite>
    requires Ready(l, e)
  {
    match e
    case Begin(leg) => Some(BeginInvite(leg))
    case Branch(fe) => Some(l.invite.value.(fork := FM.Step(l.invite.value.fork, fe)))
    case Record(_, _, _) => Some(l.invite.value.(phase := Stored, fork := ForkAfter(l.invite.value, FM.Record)))
    case AnswerUpstream =>
      Some(l.invite.value.(phase := Answered, fork := ForkAfter(l.invite.value, FM.AnswerUpstream)))
    case Fail => Some(l.invite.value.(phase := Closing))
    case Finish => None
    case Close => None
    case _ => l.invite
  }

  function ForkAfter(i: Invite, fe: FM.Event): FM.Fanout {
    if i.leg.ToUser? && FM.Enabled(i.fork, fe) then FM.Step(i.fork, fe) else i.fork
  }

  function CallAfter(l: Local, e: Event): Option<CallState>
    requires Ready(l, e)
  {
    match e
    case Begin(_) => None
    case Record(fsURI, userURI, cseqs) => Some(StateFor(l.invite.value, fsURI, userURI, cseqs))
    case DropCall(_) => None
    case _ => l.call
  }

  function ByesAfter(l: Local, e: Event): map<nat, Bye>
    requires Ready(l, e)
  {
    match e
    case Begin(_) => map[]
    case BeginBye(b, st) => l.byes[b := Bye(st, Relaying)]
    case EndBye(b) => l.byes - {b}
    case DropCall(b) => l.byes[b := l.byes[b].(phase := CallGone)]
    case DropAffinity(b) => l.byes[b := l.byes[b].(phase := AffinityGone)]
    case DropSpoof(b) => l.byes - {b}
    case _ => l.byes
  }

  function PinsAfter(l: Local, e: Event): map<Aor, Addr>
    requires Ready(l, e)
  {
    match e
    case Begin(leg) => PinsOf(Users(leg), leg.fsAddr)
    case Close => l.pins - (set u | u in Users(l.invite.value.leg))
    case DropAffinity(b) => l.pins - (set u | u in l.byes[b].state.userAORs)
    case _ => l.pins
  }

  function SpoofsAfter(l: Local, e: Event): map<string, string>
    requires Ready(l, e)
  {
    match e
    case Begin(leg) => if Spoofed(leg) == "" then map[] else map[leg.spoofedUser := leg.number]
    case Close => l.spoofs - SpoofsOf(Spoofed(l.invite.value.leg))
    case DropSpoof(b) => l.spoofs - SpoofsOf(l.byes[b].state.spoofedUser)
    case _ => l.spoofs
  }

  function PastAfter(l: Local, e: Event): History
    requires Ready(l, e)
  {
    match e
    case Begin(_) => NO_HISTORY
    case Record(_, _, cseqs) => l.past.(cseqs := Numbers(l.invite.value.leg, cseqs))
    case AnswerUpstream => l.past.(answer := Some(Answerer(l.invite.value)))
    case DropCall(_) => l.past.(cleaned := true)
    case DropAffinity(_) => l.past.(pinsDropped := true)
    case DropSpoof(_) => l.past.(spoofDropped := true)
    case _ => l.past
  }

  function Step(l: Local, e: Event): Local
    requires Ready(l, e)
  {
    Local(InviteAfter(l, e), CallAfter(l, e), ByesAfter(l, e), PinsAfter(l, e), SpoofsAfter(l, e), PastAfter(l, e))
  }

  // ---------------------------------------------------------------------
  // The invariant
  // ---------------------------------------------------------------------

  /** Field by field, what the table must hold once a handler has recorded its call: for a caller, where
      it called from and the users and FreeSWITCH it was pinned for; for an agent, the contact of the
      branch that answered; for a trunk, where the call went and whom it spoofs. */
  predicate Records(i: Invite, st: CallState) {
    && st.fsAddr == i.leg.fsAddr
    && (i.leg.ToFS? ==>
          && st.userAddr == i.leg.userAddr && st.isWebRTC == i.leg.isWebRTC && st.userAORs == i.leg.users
          && st.spoofedUser == "" && st.fsCSeqOffset == 0)
    && (i.leg.ToUser? ==>
          && i.fork.pc.Recorded? && i.fork.pc.who < |i.leg.contacts|
          && var winner := i.leg.contacts[i.fork.pc.who];
             && st.userAddr == winner.address && st.userURI == winner.uri && st.isWebRTC == winner.isWebRTC
             && st.userAORs == [i.leg.aor] && st.spoofedUser == "" && st.fsCSeqOffset == 0)
    && (i.leg.ToTrunk? ==>
          && st.userAddr == i.leg.dest && !st.isWebRTC && st.userAORs == []
          && st.spoofedUser == i.leg.spoofedUser)
  }

  /** The handler still owes the tables its own deletions. */
  predicate InFlight(l: Local) { InviteIn(l, Open) || InviteIn(l, Closing) }

  predicate InviteInv(i: Invite) {
    && WellFormedInvite(i)
    && (i.leg.ToUser? ==> (i.phase.Stored? <==> i.fork.pc.Recorded?))
    && ':' !in Spoofed(i.leg)
  }

  /** A trunk call's entry in the spoof cache is the trunk number. */
  predicate SpoofValue(l: Local) {
    l.invite.Some? && l.invite.value.leg.ToTrunk? ==>
      forall u :: u in l.spoofs ==> l.spoofs[u] == l.invite.value.leg.number
  }

  predicate HasRows(l: Local, users: seq<Aor>, fs: Addr, spoofed: string) {
    l.pins == PinsOf(users, fs) && l.spoofs.Keys == SpoofsOf(spoofed)
  }

  ghost predicate ByeInv(l: Local) {
    && (forall b, b' :: b in l.byes && b' in l.byes ==> l.byes[b].state == l.byes[b'].state)
    && (forall b :: b in l.byes ==> ':' !in l.byes[b].state.spoofedUser)
  }

  /** No BYE has begun to clean up. */
  predicate Intact(l: Local) { !l.past.cleaned && !l.past.pinsDropped && !l.past.spoofDropped }

  /** A live call owns exactly its rows. */
  ghost predicate CallInv(l: Local, st: CallState) {
    && HasRows(l, st.userAORs, st.fsAddr, st.spoofedUser) && Intact(l) && ':' !in st.spoofedUser
    && st.fsCSeqOffset == Fw.DigestOffset(l.past.cseqs.own, l.past.cseqs.auth)
    && (forall b :: b in l.byes ==> l.byes[b] == Bye(st, Relaying))
    && (InviteIn(l, Stored) ==>
          Records(l.invite.value, st) && WellFormedInvite(l.invite.value) &&
          Destination(st, Answerer(l.invite.value).fromFS) == AddressOf(Answerer(l.invite.value)))
    && (l.past.answer.Some? ==> Destination(st, l.past.answer.value.fromFS) == AddressOf(l.past.answer.value))
    && (l.invite.Some? ==> l.invite.value.phase.Stored? || l.invite.value.phase.Answered?)
  }

  /** cleanupCall has deleted the call and no BYE has come to the affinity index, or the spoof cache, yet. */
  predicate PinsOwed(l: Local) { l.past.cleaned && !l.past.pinsDropped }

  predicate SpoofOwed(l: Local) { l.past.cleaned && !l.past.spoofDropped }

  /** BYE b has deleted the call and still has the spoof cache to come to. */
  predicate Cleaning(l: Local, b: nat) { b in l.byes && l.byes[b].phase != Relaying }

  /** A call that is gone keeps its rows exactly until a cleanup comes to them. */
  ghost predicate GoneInv(l: Local) {
    && (PinsOwed(l) ==>
          exists b :: ByeIn(l, b, CallGone) && l.pins == PinsOf(l.byes[b].state.userAORs, l.byes[b].state.fsAddr))
    && (!PinsOwed(l) ==> l.pins == map[])
    && (SpoofOwed(l) ==> exists b :: Cleaning(l, b) && l.spoofs.Keys == SpoofsOf(l.byes[b].state.spoofedUser))
    && (!SpoofOwed(l) ==> l.spoofs == map[])
    && (l.past.answer.Some? || InviteIn(l, Stored) || l.byes != map[] ==> l.past.cleaned)
  }

  ghost predicate Inv(l: Local) {
    && ByeInv(l) && SpoofValue(l)
    && (l.invite.Some? ==> InviteInv(l.invite.value))
    && (if InFlight(l) then
          var leg := l.invite.value.leg;
          && l.call.None? && l.byes == map[] && l.past.answer.None? && Intact(l)
          && HasRows(l, Users(leg), leg.fsAddr, Spoofed(leg))
        else if l.call.Some? then CallInv(l, l.call.value)
        else GoneInv(l))
  }

  /** The fork of an INVITE to an agent keeps its own invariant. */
  ghost predicate ForkInv(l: Local) {
    l.invite.Some? && l.invite.value.leg.ToUser? ==> FM.Inv(l.invite.value.fork)
  }

  lemma BeginKeepsInv(l: Local, leg: Leg)
    requires Inv(l) && Enabled(l, Begin(leg))
    ensures Inv(Step(l, Begin(leg)))
  {
  }

  lemma WinnerIsABranch(f: FM.Fanout)
    requires FM.Inv(f)
    ensures f.pc.Won? || f.pc.Recorded? ==> f.pc.who < |f.branches|
  {
    if f.pc.Won? || f.pc.Recorded? {
      assert FM.Sound(f.branches, f.seen[|f.seen| - 1]);
    }
  }

  lemma BranchKeepsInv(l: Local, e: FM.Event)
    requires Inv(l) && Enabled(l, Branch(e))
    requires var f := FM.Step(l.invite.value.fork, e);
             |f.branches| == |l.invite.value.fork.branches| && (f.pc.Won? || f.pc.Recorded? ==> f.pc.who < |f.branches|)
    ensures Inv(Step(l, Branch(e)))
  {
    var i, i' := l.invite.value, Step(l, Branch(e)).invite.value;
    assert i.fork.pc.Recorded? ==> i'.fork.pc == i.fork.pc;
    assert i'.fork.pc.Recorded? ==> i'.fork.pc == i.fork.pc;
  }

  lemma RecordKeepsInv(l: Local, e: Event)
    requires Inv(l) && Enabled(l, e) && e.Record?
    ensures Inv(Step(l, e))
  {
  }

  lemma AnswerKeepsInv(l: Local)
    requires Inv(l) && Enabled(l, AnswerUpstream)
    ensures Inv(Step(l, AnswerUpstream))
  {
  }

  lemma {:induction false} ForkStep(l: Local, e: Event)
    requires Inv(l) && ForkInv(l) && Enabled(l, e)
    ensures ForkInv(Step(l, e))
    ensures e.Branch? ==> var f := FM.Step(l.invite.value.fork, e.e);
             |f.branches| == |l.invite.value.fork.branches| && (f.pc.Won? || f.pc.Recorded? ==> f.pc.who < |f.branches|)
  {
    if e.Begin? && e.leg.ToUser? {
      FM.InitInv(|e.leg.contacts|);
    } else if (e.Branch? || e.Record? || e.AnswerUpstream?) && l.invite.value.leg.ToUser? {
      var fe := if e.Branch? then e.e else if e.Record? then FM.Record else FM.AnswerUpstream;
      FM.StepKeepsInv(l.invite.value.fork, fe);
      WinnerIsABranch(FM.Step(l.invite.value.fork, fe));
    }
  }

  lemma PinsGone(users: seq<Aor>, fs: Addr)
    ensures PinsOf(users, fs) - (set u | u in users) == map[]
  {
  }

  lemma LeaveKeepsInv(l: Local, e: Event)
    requires Inv(l) && Enabled(l, e) && (e.Finish? || e.Fail? || e.Close?)
    ensures Inv(Step(l, e))
  {
    if e.Close? {
      var leg := l.invite.value.leg;
      PinsGone(Users(leg), leg.fsAddr);
      assert (l.spoofs - SpoofsOf(Spoofed(leg))).Keys == {};
    }
  }

  lemma ByeKeepsInv(l: Local, e: Event)
    requires Inv(l) && Enabled(l, e) && (e.BeginBye? || e.EndBye? || e.DropCall?)
    ensures Inv(Step(l, e))
  {
    if e.DropCall? {
      if l.call.Some? {
        DropCallWhenLive(l, e.b);
      } else {
        DropCallWhenGone(l, e.b);
      }
    } else if e.EndBye? && l.call.None? {
      EndByeWhenGone(l, e.b);
    }
  }

  /** The rows of a gone call stay in order while no cleanup in progress changes. */
  lemma GoneFrame(l: Local, l': Local)
    requires GoneInv(l) && l.past.cleaned && l'.past == l.past && l'.pins == l.pins && l'.spoofs == l.spoofs
    requires forall b :: Cleaning(l, b) ==> b in l'.byes && l'.byes[b] == l.byes[b]
    ensures GoneInv(l')
  {
    if PinsOwed(l) {
      var b :| ByeIn(l, b, CallGone) && l.pins == PinsOf(l.byes[b].state.userAORs, l.byes[b].state.fsAddr);
      assert Cleaning(l, b) && ByeIn(l', b, CallGone);
    }
    if SpoofOwed(l) {
      var b :| Cleaning(l, b) && l.spoofs.Keys == SpoofsOf(l.byes[b].state.spoofedUser);
      assert Cleaning(l', b);
    }
  }

  lemma EndByeWhenGone(l: Local, b: nat)
    requires Inv(l) && Enabled(l, EndBye(b)) && l.call.None?
    ensures Inv(Step(l, EndBye(b)))
  {
    GoneFrame(l, Step(l, EndBye(b)));
  }

  lemma DropCallWhenGone(l: Local, b: nat)
    requires Inv(l) && Enabled(l, DropCall(b)) && l.call.None?
    ensures Inv(Step(l, DropCall(b)))
  {
    GoneFrame(l, Step(l, DropCall(b)));
  }

  lemma DropCallWhenLive(l: Local, b: nat)
    requires Inv(l) && Enabled(l, DropCall(b)) && l.call.Some?
    ensures Inv(Step(l, DropCall(b)))
  {
    assert ByeIn(Step(l, DropCall(b)), b, CallGone);
  }

  lemma DropAffinityKeepsInv(l: Local, b: nat)
    requires Inv(l) && Enabled(l, DropAffinity(b))
    ensures Inv(Step(l, DropAffinity(b)))
  {
    var l', st := Step(l, DropAffinity(b)), l.byes[b].state;
    assert l.call.None?;
    PinsGone(st.userAORs, st.fsAddr);
    assert l'.pins == map[];
    if SpoofOwed(l) {
      var b' :| Cleaning(l, b') && l.spoofs.Keys == SpoofsOf(l.byes[b'].state.spoofedUser);
      assert Cleaning(l', b') && l'.byes[b'].state == l.byes[b'].state;
    }
  }

  lemma DropSpoofKeepsInv(l: Local, b: nat)
    requires Inv(l) && Enabled(l, DropSpoof(b))
    ensures Inv(Step(l, DropSpoof(b)))
  {
    var l', st := Step(l, DropSpoof(b)), l.byes[b].state;
    assert l.call.None?;
    assert l'.spoofs.Keys == {} by {
      assert l.spoofs.Keys <= SpoofsOf(st.spoofedUser);
    }
    if PinsOwed(l) {
      var b' :| ByeIn(l, b', CallGone) && l.pins == PinsOf(l.byes[b'].state.userAORs, l.byes[b'].state.fsAddr);
      assert ByeIn(l', b', CallGone) && l'.byes[b'] == l.byes[b'];
    }
  }

  /** Every step of the INVITE, ACK and BYE handlers keeps the invariant. */
  lemma StepKeepsInv(l: Local, e: Event)
    requires Inv(l) && ForkInv(l) && Enabled(l, e)
    ensures Inv(Step(l, e)) && ForkInv(Step(l, e))
  {
    ForkStep(l, e);
    match e {
      case Begin(leg) => BeginKeepsInv(l, leg);
      case Branch(fe) => BranchKeepsInv(l, fe);
      case Record(_, _, _) => RecordKeepsInv(l, e);
      case AnswerUpstream => AnswerKeepsInv(l);
      case Finish => LeaveKeepsInv(l, e);
      case Fail => LeaveKeepsInv(l, e);
      case Close => LeaveKeepsInv(l, e);
      case BeginBye(_, _) => ByeKeepsInv(l, e);
      case EndBye(_) => ByeKeepsInv(l, e);
      case DropCall(_) => ByeKeepsInv(l, e);
      case DropAffinity(b) => DropAffinityKeepsInv(l, b);
      case DropSpoof(b) => DropSpoofKeepsInv(l, b);
    }
  }
}
