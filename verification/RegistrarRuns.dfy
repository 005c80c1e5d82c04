/** What the registrar's lists stand for: a map from (AOR, address) to contact,
    over every sequence of operations, and the keepalive's count of missed pings. */
module RegistrarRuns {
  import opened Text
  import opened Registrar
  import Slices

  predicate Unique(list: seq<Contact>) {
    forall i, j :: 0 <= i < j < |list| ==> list[i].address != list[j].address
  }

  predicate AllUnique(t: Table) { forall aor :: aor in t ==> Unique(t[aor]) }

  function Find(list: seq<Contact>, address: string): Option<Contact> {
    var i := Position(list, address);
    if i >= 0 then Some(list[i]) else None
  }

  /** The abstract map: the contact registered for this AOR from this address. */
  function Get(t: Table, aor: string, address: string): Option<Contact> { Find(ListOf(t, aor), address) }

  datatype Op =
    | Register(aor: string, c: Contact)
    | Unregister(aor: string)
    | UnregisterContact(aor: string, address: string)
    | Reap(now: int)
    | PingAnswered(aor: string, address: string)
    | PingMissed(aor: string, address: string)

  function Apply(t: Table, op: Op, maxMissed: int): Table {
    match op
    case Register(aor, c) => DoRegister(t, aor, c)
    case Unregister(aor) => DoUnregister(t, aor)
    case UnregisterContact(aor, a) => DoUnregisterContact(t, aor, a)
    case Reap(now) => DoReap(t, now)
    case PingAnswered(aor, a) => DoPingAnswered(t, aor, a)
    case PingMissed(aor, a) => DoPingMissed(t, aor, a, maxMissed)
  }

  function MissedCellAfter(cell: Option<Contact>, maxMissed: int): Option<Contact> {
    if cell.None? then None
    else if cell.value.missedPings + 1 < maxMissed then Some(cell.value.(missedPings := cell.value.missedPings + 1))
    else None
  }

  /** The same operation on the abstract map: what one cell holds afterwards. */
  function CellAfter(cell: Option<Contact>, aor: string, address: string, op: Op, maxMissed: int): Option<Contact> {
    match op
    case Register(a, c) => if a == aor && c.address == address then Some(c) else cell
    case Unregister(a) => if a == aor then None else cell
    case UnregisterContact(a, ad) => if a == aor && ad == address then None else cell
    case Reap(now) => if cell.Some? && !IsLive(cell.value, now) then None else cell
    case PingAnswered(a, ad) =>
      if a == aor && ad == address && cell.Some? then Some(cell.value.(missedPings := 0)) else cell
    case PingMissed(a, ad) =>
      if a == aor && ad == address then MissedCellAfter(cell, maxMissed) else cell
  }

  // ---------------------------------------------------------------------
  // One list
  // ---------------------------------------------------------------------

  lemma FindIsMembership(list: seq<Contact>, a: string)
    requires Unique(list)
    ensures forall c :: Find(list, a) == Some(c) <==> c in list && c.address == a
  {
  }

  lemma PutMembers(list: seq<Contact>, c: Contact)
    requires Unique(list)
    ensures Unique(Put(list, c))
    ensures forall x :: x in Put(list, c) <==> x == c || (x in list && x.address != c.address)
  {
    var i, after := Position(list, c.address), Put(list, c);
    assert forall j :: 0 <= j < |list| && j != i ==> after[j] == list[j];
    assert if i >= 0 then after[i] == c else after[|list|] == c;
  }

  function Addresses(list: seq<Contact>): (all: seq<string>)
    ensures |all| == |list| && forall i :: 0 <= i < |all| ==> all[i] == list[i].address
  {
    seq(|list|, i requires 0 <= i < |list| => list[i].address)
  }

  /** A contact registered again keeps its place; a new one comes last. */
  lemma RegisteringKeepsOrder(t: Table, aor: string, c: Contact)
    ensures var before, after := Addresses(ListOf(t, aor)), Addresses(ListOf(DoRegister(t, aor, c), aor));
            after == if c.address in before then before else before + [c.address]
  {
    var list := ListOf(t, aor);
    var i := Position(list, c.address);
    if i >= 0 {
      assert Addresses(list)[i] == c.address;
    }
  }

  /** Removing the one contact with an address is filtering by address, order kept. */
  lemma WithoutMembers(list: seq<Contact>, address: string)
    requires Unique(list)
    ensures Unique(Without(list, address))
    ensures forall x :: x in Without(list, address) <==> x in list && x.address != address
  {
    var i, after := Position(list, address), Without(list, address);
    if i >= 0 {
      assert forall j :: 0 <= j < |after| ==> after[j] == if j < i then list[j] else list[j + 1];
      assert forall j :: 0 <= j < |list| && j != i ==> list[j] == if j < i then after[j] else after[j - 1];
    }
  }

  /** Where an address stands when the last contact is left out. */
  lemma PositionSnoc(list: seq<Contact>, last: Contact, address: string)
    requires Unique(list + [last])
    ensures Position(list + [last], address) == if last.address == address then |list| else Position(list, address)
    ensures last.address == address ==> Position(list, address) == -1
  {
    var all := list + [last];
    assert all[|list|] == last && forall j :: 0 <= j < |list| ==> all[j] == list[j];
  }

  lemma SpliceSnoc(list: seq<Contact>, last: Contact, i: nat)
    requires i < |list|
    ensures (list + [last])[..i] + (list + [last])[i + 1..] == (list[..i] + list[i + 1..]) + [last]
  {
  }

  lemma WithoutSnoc(list: seq<Contact>, last: Contact, address: string)
    requires Unique(list + [last])
    ensures Without(list + [last], address) == Without(list, address) + if last.address != address then [last] else []
  {
    PositionSnoc(list, last, address);
    if last.address == address {
      assert (list + [last])[..|list|] + (list + [last])[|list| + 1..] == list;
    } else if Position(list, address) >= 0 {
      SpliceSnoc(list, last, Position(list, address));
    }
  }

  lemma {:induction false} WithoutIsFilter(list: seq<Contact>, address: string)
    requires Unique(list)
    ensures Without(list, address) == Slices.Filter(list, (c: Contact) => c.address != address)
  {
    if list != [] {
      var n := |list| - 1;
      WithoutIsFilter(list[..n], address);
      assert list[..n] + [list[n]] == list;
      WithoutSnoc(list[..n], list[n], address);
    }
  }

  lemma LiveMembers(list: seq<Contact>, now: int)
    requires Unique(list)
    ensures Unique(Live(list, now))
    ensures forall x :: x in Live(list, now) <==> x in list && IsLive(x, now)
  {
    LiveIsUnique(list, now);
    Slices.FilterKeepsExactly(list, (c: Contact) => IsLive(c, now));
  }

  lemma {:induction false} LiveIsUnique(list: seq<Contact>, now: int)
    requires Unique(list)
    ensures Unique(Live(list, now))
  {
    if list != [] {
      var rest, last := list[..|list| - 1], list[|list| - 1];
      LiveIsUnique(rest, now);
      Slices.FilterKeepsExactly(rest, (c: Contact) => IsLive(c, now));
      assert forall x :: x in rest ==> x.address != last.address;
    }
  }

  /** Changing only a contact's count of missed pings. */
  lemma CountMembers(list: seq<Contact>, i: nat, missed: nat)
    requires Unique(list) && i < |list|
    ensures var after := list[i := list[i].(missedPings := missed)];
            && Unique(after)
            && forall x :: x in after <==>
                           x == list[i].(missedPings := missed) || (x in list && x.address != list[i].address)
  {
    PutMembers(list, list[i].(missedPings := missed));
  }

  // ---------------------------------------------------------------------
  // The refinement
  // ---------------------------------------------------------------------

  /** What an operation does to the list of one AOR it is about. */
  function ListStep(list: seq<Contact>, op: Op, maxMissed: int): seq<Contact> {
    match op
    case Register(_, c) => Put(list, c)
    case Unregister(_) => []
    case UnregisterContact(_, a) => Without(list, a)
    case Reap(now) => Live(list, now)
    case PingAnswered(_, a) =>
      var i := Position(list, a);
      if i >= 0 then list[i := list[i].(missedPings := 0)] else list
    case PingMissed(_, a) => MissedList(list, a, maxMissed)
  }

  function MissedList(list: seq<Contact>, a: string, maxMissed: int): seq<Contact> {
    var i := Position(list, a);
    if i < 0 then list
    else if list[i].missedPings + 1 < maxMissed then list[i := list[i].(missedPings := list[i].missedPings + 1)]
    else Without(list, a)
  }

  predicate About(op: Op, aor: string) { op.Reap? || op.aor == aor }

  lemma ApplyIsListStep(t: Table, op: Op, maxMissed: int, aor: string)
    ensures ListOf(Apply(t, op, maxMissed), aor) ==
            if About(op, aor) then ListStep(ListOf(t, aor), op, maxMissed) else ListOf(t, aor)
  {
  }

  lemma ListStepUnique(list: seq<Contact>, op: Op, maxMissed: int)
    requires Unique(list)
    ensures Unique(ListStep(list, op, maxMissed))
  {
    match op {
      case Register(_, c) => PutMembers(list, c);
      case Unregister(_) =>
      case UnregisterContact(_, a) => WithoutMembers(list, a);
      case Reap(now) => LiveMembers(list, now);
      case PingAnswered(_, a) =>
        if Position(list, a) >= 0 {
          CountMembers(list, Position(list, a), 0);
        }
      case PingMissed(_, a) => MissedMembers(list, a, maxMissed);
    }
  }

  lemma MissedMembers(list: seq<Contact>, a: string, maxMissed: int)
    requires Unique(list)
    ensures var after, i := MissedList(list, a, maxMissed), Position(list, a);
            && Unique(after)
            && (i < 0 ==> after == list)
            && (i >= 0 && list[i].missedPings + 1 < maxMissed ==>
                  forall x :: x in after <==>
                              x == list[i].(missedPings := list[i].missedPings + 1) || (x in list && x.address != a))
            && (i >= 0 && list[i].missedPings + 1 >= maxMissed ==>
                  forall x :: x in after <==> x in list && x.address != a)
  {
    var i := Position(list, a);
    if i >= 0 {
      if list[i].missedPings + 1 < maxMissed {
        CountMembers(list, i, list[i].missedPings + 1);
      } else {
        WithoutMembers(list, a);
      }
    }
  }

  /** What the abstract map's cell for x's address becomes, for an AOR the operation is about. */
  lemma ListStepCell(list: seq<Contact>, op: Op, maxMissed: int, aor: string, x: Contact)
    requires Unique(list) && About(op, aor)
    ensures x in ListStep(list, op, maxMissed) <==>
            Some(x) == CellAfter(Find(list, x.address), aor, x.address, op, maxMissed)
  {
    FindIsMembership(list, x.address);
    match op {
      case Register(_, c) => PutMembers(list, c);
      case Unregister(_) =>
      case UnregisterContact(_, a) => WithoutMembers(list, a);
      case Reap(now) => LiveMembers(list, now);
      case PingAnswered(_, a) =>
        if Position(list, a) >= 0 {
          CountMembers(list, Position(list, a), 0);
        }
      case PingMissed(_, a) => MissedCell(list, a, maxMissed, x);
    }
  }

  lemma MissedCell(list: seq<Contact>, a: string, maxMissed: int, x: Contact)
    requires Unique(list)
    ensures x in MissedList(list, a, maxMissed) <==>
            Some(x) == if x.address == a then MissedCellAfter(Find(list, a), maxMissed) else Find(list, x.address)
  {
    FindIsMembership(list, x.address);
    MissedMembers(list, a, maxMissed);
    var i := Position(list, a);
    assert x.address == a && i < 0 ==> x !in list;
  }

  lemma CellOfList(list': seq<Contact>, cell: Option<Contact>, a: string)
    requires Unique(list')
    requires forall x: Contact :: x.address == a ==> (x in list' <==> Some(x) == cell)
    requires cell.Some? ==> cell.value.address == a
    ensures Find(list', a) == cell
  {
    FindIsMembership(list', a);
  }

  /** Every operation keeps addresses unique and does to the lists what it does to
      the abstract map, cell by cell. */
  lemma {:induction false} OperationRefinesMap(t: Table, op: Op, maxMissed: int)
    requires AllUnique(t)
    ensures AllUnique(Apply(t, op, maxMissed))
    ensures forall aor, a :: Get(Apply(t, op, maxMissed), aor, a) == CellAfter(Get(t, aor, a), aor, a, op, maxMissed)
  {
    var t' := Apply(t, op, maxMissed);
    forall aor ensures Unique(ListOf(t', aor)) {
      StepKeepsUnique(t, op, maxMissed, aor);
    }
    assert forall aor :: aor in t' ==> t'[aor] == ListOf(t', aor);
    forall aor, a ensures Get(t', aor, a) == CellAfter(Get(t, aor, a), aor, a, op, maxMissed) {
      CellRefines(t, op, maxMissed, aor, a);
    }
  }

  lemma StepKeepsUnique(t: Table, op: Op, maxMissed: int, aor: string)
    requires AllUnique(t)
    ensures Unique(ListOf(Apply(t, op, maxMissed), aor))
  {
    assert Unique(ListOf(t, aor));
    ApplyIsListStep(t, op, maxMissed, aor);
    ListStepUnique(ListOf(t, aor), op, maxMissed);
  }

  lemma CellKeepsItsAddress(list: seq<Contact>, aor: string, a: string, op: Op, maxMissed: int)
    ensures var cell := CellAfter(Find(list, a), aor, a, op, maxMissed); cell.Some? ==> cell.value.address == a
    ensures !About(op, aor) ==> CellAfter(Find(list, a), aor, a, op, maxMissed) == Find(list, a)
  {
  }

  lemma CellRefines(t: Table, op: Op, maxMissed: int, aor: string, a: string)
    requires AllUnique(t)
    ensures Get(Apply(t, op, maxMissed), aor, a) == CellAfter(Get(t, aor, a), aor, a, op, maxMissed)
  {
    var list, list' := ListOf(t, aor), ListOf(Apply(t, op, maxMissed), aor);
    assert Unique(list);
    StepKeepsUnique(t, op, maxMissed, aor);
    ApplyIsListStep(t, op, maxMissed, aor);
    CellKeepsItsAddress(list, aor, a, op, maxMissed);
    if About(op, aor) {
      var cell := CellAfter(Find(list, a), aor, a, op, maxMissed);
      forall x: Contact | x.address == a ensures x in list' <==> Some(x) == cell {
        ListStepCell(list, op, maxMissed, aor, x);
      }
      CellOfList(list', cell, a);
    }
  }

  // ---------------------------------------------------------------------
  // Reaping
  // ---------------------------------------------------------------------

  lemma LiveOfLive(list: seq<Contact>, now: int, later: int)
    requires now <= later
    ensures Live(Live(list, now), later) == Live(list, later)
  {
    Slices.FilterTwice(list, (c: Contact) => IsLive(c, now), (c: Contact) => IsLive(c, later));
  }

  lemma LiveIsLive(list: seq<Contact>, now: int)
    ensures forall x :: x in Live(list, now) ==> IsLive(x, now)
  {
    Slices.FilterKeepsExactly(list, (c: Contact) => IsLive(c, now));
  }

  /** reap changes no lookup at its own time or later, and leaves only non-empty
      lists of live contacts. */
  lemma ReapIsUnobservable(t: Table, now: int, later: int, aor: string)
    requires now <= later
    ensures Live(ListOf(DoReap(t, now), aor), later) == Live(ListOf(t, aor), later)
    ensures aor in DoReap(t, now) ==>
              && DoReap(t, now)[aor] != []
              && forall x :: x in DoReap(t, now)[aor] ==> IsLive(x, now)
  {
    LiveOfLive(ListOf(t, aor), now, later);
    LiveIsLive(ListOf(t, aor), now);
  }

  // ---------------------------------------------------------------------
  // Whole runs
  // ---------------------------------------------------------------------

  function Run(ops: seq<Op>, maxMissed: int): Table {
    if ops == [] then map[] else Apply(Run(ops[..|ops| - 1], maxMissed), ops[|ops| - 1], maxMissed)
  }

  /** A registration starts with no missed pings. */
  predicate Fresh(ops: seq<Op>) {
    forall k :: 0 <= k < |ops| && ops[k].Register? ==> ops[k].c.missedPings == 0
  }

  lemma {:induction false} RunsStayUnique(ops: seq<Op>, maxMissed: int)
    ensures AllUnique(Run(ops, maxMissed))
  {
    if ops != [] {
      RunsStayUnique(ops[..|ops| - 1], maxMissed);
      OperationRefinesMap(Run(ops[..|ops| - 1], maxMissed), ops[|ops| - 1], maxMissed);
    }
  }

  /** Pings missed since the last answer from, or registration of, that address. */
  function MissesSince(ops: seq<Op>, aor: string, a: string): nat {
    if ops == [] then 0
    else StepMisses(MissesSince(ops[..|ops| - 1], aor, a), ops[|ops| - 1], aor, a)
  }

  function StepMisses(before: nat, op: Op, aor: string, a: string): nat {
    match op
    case Register(x, c) => if x == aor && c.address == a then 0 else before
    case PingAnswered(x, y) => if x == aor && y == a then 0 else before
    case PingMissed(x, y) => if x == aor && y == a then before + 1 else before
    case _ => before
  }

  lemma CellOfRun(ops: seq<Op>, maxMissed: int, aor: string, a: string)
    requires ops != []
    ensures Get(Run(ops, maxMissed), aor, a) ==
            CellAfter(Get(Run(ops[..|ops| - 1], maxMissed), aor, a), aor, a, ops[|ops| - 1], maxMissed)
  {
    RunsStayUnique(ops[..|ops| - 1], maxMissed);
    OperationRefinesMap(Run(ops[..|ops| - 1], maxMissed), ops[|ops| - 1], maxMissed);
  }

  /** What a step does to a cell's count, and to the count it should have. */
  lemma CountStep(cell: Option<Contact>, before: nat, op: Op, maxMissed: int, aor: string, a: string)
    requires maxMissed >= 1 && (op.Register? ==> op.c.missedPings == 0)
    requires cell.Some? ==> cell.value.missedPings == before < maxMissed
    ensures var after := CellAfter(cell, aor, a, op, maxMissed);
            after.Some? ==> after.value.missedPings == StepMisses(before, op, aor, a) < maxMissed
  {
  }

  /** While a contact is stored, its count is the misses since the last answer or
      registration, and stays below the limit. */
  lemma {:induction false} StoredContactsCountMisses(ops: seq<Op>, maxMissed: int, aor: string, a: string)
    requires maxMissed >= 1 && Fresh(ops)
    ensures var cell := Get(Run(ops, maxMissed), aor, a);
            cell.Some? ==> cell.value.missedPings == MissesSince(ops, aor, a) < maxMissed
  {
    if ops != [] {
      var rest := ops[..|ops| - 1];
      assert Fresh(rest);
      StoredContactsCountMisses(rest, maxMissed, aor, a);
      CellOfRun(ops, maxMissed, aor, a);
      CountStep(Get(Run(rest, maxMissed), aor, a), MissesSince(rest, aor, a), ops[|ops| - 1], maxMissed, aor, a);
    }
  }

  /** A missed ping removes the contact exactly when it is the maxMissed-th in a row,
      removes no other, and reports the AOR emptied exactly when it removed its last. */
  lemma {:induction false} MissedPingRemovesAtTheLimit(ops: seq<Op>, maxMissed: int, aor: string, a: string)
    requires maxMissed >= 1 && Fresh(ops)
    requires Get(Run(ops, maxMissed), aor, a).Some?
    ensures var t, t' := Run(ops, maxMissed), DoPingMissed(Run(ops, maxMissed), aor, a, maxMissed);
            && (Get(t', aor, a).None? <==> MissesSince(ops + [PingMissed(aor, a)], aor, a) == maxMissed)
            && (forall x, b :: x != aor || b != a ==> Get(t', x, b) == Get(t, x, b))
            && (ReportsEmptied(t, aor, a, maxMissed) <==> aor !in t')
            && (aor !in t' <==> forall b :: Get(t', aor, b).None?)
  {
    var t, op := Run(ops, maxMissed), PingMissed(aor, a);
    var t' := Apply(t, op, maxMissed);
    RunsStayUnique(ops, maxMissed);
    StoredContactsCountMisses(ops, maxMissed, aor, a);
    OperationRefinesMap(t, op, maxMissed);
    assert (ops + [op])[..|ops|] == ops;
    assert Get(t', aor, a) == CellAfter(Get(t, aor, a), aor, a, op, maxMissed);
    if aor in t' {
      assert t'[aor] != [];
      FindIsMembership(t'[aor], t'[aor][0].address);
      assert Get(t', aor, t'[aor][0].address) == Some(t'[aor][0]);
    }
  }
}
