/** Concurrent lookups through one cache: its loads, deletes and stores interleave freely. */
module ApiCacheRuns {
  import opened Text
  import opened ApiCache

  // ---------------------------------------------------------------------
  // State
  // ---------------------------------------------------------------------

  /** How far a lookup has come. */
  datatype Stage<V> =
    | Loading
    | Checking(loaded: Option<Entry<V>>)
    | Deleting
    | Asking
    | Holding(reply: Reply<V>, receivedAt: int)
    | Storing(reply: Reply<V>, entry: Entry<V>)

  datatype Lookup<V> = Lookup(key: string, stage: Stage<V>)

  /** A reply that was cached: when it came in, and the clock reading its lifetime counts from. */
  datatype Receipt<V> = Receipt(key: string, reply: Reply<V>, receivedAt: int, stampedAt: int)

  /** An answer handed to a caller; `asked` is the server's reply to this very lookup, if it asked. */
  datatype Given<V> = Given(key: string, answer: Reply<V>, at: int, asked: Option<Reply<V>>)

  datatype Sys<V> = Sys(
    now: int,
    cache: map<string, Entry<V>>,
    lookups: map<nat, Lookup<V>>,
    receipts: seq<Receipt<V>>,
    given: seq<Given<V>>)

  datatype Action<V> =
    | Tick(elapsed: nat)
    | Begin(id: nat, key: string)
    | Advance(id: nat)
    | Receive(id: nat, reply: Reply<V>)

  function Empty<V>(now: int): Sys<V> { Sys(now, map[], map[], [], []) }

  // ---------------------------------------------------------------------
  // Steps
  // ---------------------------------------------------------------------

  function Goto<V>(s: Sys<V>, id: nat, stage: Stage<V>): Sys<V>
    requires id in s.lookups
  {
    s.(lookups := s.lookups[id := s.lookups[id].(stage := stage)])
  }

  function Give<V>(s: Sys<V>, id: nat, answer: Reply<V>, asked: Option<Reply<V>>): Sys<V>
    requires id in s.lookups
  {
    s.(lookups := s.lookups - {id}, given := s.given + [Given(s.lookups[id].key, answer, s.now, asked)])
  }

  /** The next atomic step of one lookup. */
  function Advanced<V>(p: Policy, s: Sys<V>, id: nat): Sys<V>
    requires id in s.lookups
  {
    var key := s.lookups[id].key;
    match s.lookups[id].stage
    case Loading => Goto(s, id, Checking(if key in s.cache then Some(s.cache[key]) else None))
    case Checking(None) => Goto(s, id, Asking)
    case Checking(Some(e)) =>
      if s.now < e.expiresAt then Give(s, id, ReplyIn(e), None) else Goto(s, id, Deleting)
    case Deleting => Goto(s.(cache := s.cache - {key}), id, Asking)
    case Asking => s
    case Holding(reply, receivedAt) =>
      (match Cached(p, reply, s.now)
       case None => Give(s, id, reply, Some(reply))
       case Some(e) =>
         Goto(s.(receipts := s.receipts + [Receipt(key, reply, receivedAt, s.now)]), id, Storing(reply, e)))
    case Storing(reply, e) => Give(s.(cache := s.cache[key := e]), id, reply, Some(reply))
  }

  function Step<V>(p: Policy, s: Sys<V>, a: Action<V>): Sys<V> {
    match a
    case Tick(elapsed) => s.(now := s.now + elapsed)
    case Begin(id, key) => if id in s.lookups then s else s.(lookups := s.lookups[id := Lookup(key, Loading)])
    case Advance(id) => if id in s.lookups then Advanced(p, s, id) else s
    case Receive(id, reply) =>
      if id in s.lookups && s.lookups[id].stage.Asking? then Goto(s, id, Holding(reply, s.now)) else s
  }

  function Run<V>(p: Policy, s: Sys<V>, actions: seq<Action<V>>): Sys<V>
    decreases |actions|
  {
    if actions == [] then s else Run(p, Step(p, s, actions[0]), actions[1..])
  }

  // ---------------------------------------------------------------------
  // The invariant
  // ---------------------------------------------------------------------

  predicate Backs<V(==)>(p: Policy, r: Receipt<V>, key: string, e: Entry<V>, now: int) {
    r.key == key && r.receivedAt <= r.stampedAt <= now && Cached(p, r.reply, r.stampedAt) == Some(e)
  }

  ghost predicate Backed<V(!new)>(p: Policy, s: Sys<V>, key: string, e: Entry<V>) {
    exists r :: r in s.receipts && Backs(p, r, key, e, s.now)
  }

  ghost predicate StageInv<V(!new)>(p: Policy, s: Sys<V>, key: string, stage: Stage<V>) {
    match stage
    case Checking(Some(e)) => Backed(p, s, key, e)
    case Holding(_, receivedAt) => receivedAt <= s.now
    case Storing(_, e) => Backed(p, s, key, e)
    case _ => true
  }

  /** The receipt r accounts for an answer from the cache: same key and reply, still alive. */
  predicate Accounts<V(==)>(p: Policy, r: Receipt<V>, g: Given<V>) {
    && r.key == g.key && r.reply == g.answer && r.receivedAt <= r.stampedAt <= g.at
    && Ttl(p, r.reply).Some? && g.at < r.stampedAt + Ttl(p, r.reply).value
  }

  ghost predicate Justified<V(!new)>(p: Policy, receipts: seq<Receipt<V>>, g: Given<V>) {
    match g.asked
    case Some(reply) => g.answer == reply
    case None => exists r :: r in receipts && Accounts(p, r, g)
  }

  ghost predicate Inv<V(!new)>(p: Policy, s: Sys<V>) {
    && (forall k :: k in s.cache ==> Backed(p, s, k, s.cache[k]))
    && (forall id :: id in s.lookups ==> StageInv(p, s, s.lookups[id].key, s.lookups[id].stage))
    && (forall g :: g in s.given ==> Justified(p, s.receipts, g))
  }

  /** Receipts and the clock only grow, so what was backed stays backed. */
  lemma BackedGrows<V(!new)>(p: Policy, s: Sys<V>, s': Sys<V>)
    requires s.receipts <= s'.receipts && s.now <= s'.now
    ensures forall key, e :: Backed(p, s, key, e) ==> Backed(p, s', key, e)
    ensures forall key, stage :: StageInv(p, s, key, stage) ==> StageInv(p, s', key, stage)
    ensures forall g :: Justified(p, s.receipts, g) ==> Justified(p, s'.receipts, g)
  {
    forall key, e | Backed(p, s, key, e) ensures Backed(p, s', key, e) {
      var r :| r in s.receipts && Backs(p, r, key, e, s.now);
      assert r in s'.receipts && Backs(p, r, key, e, s'.now);
    }
    forall g | Justified(p, s.receipts, g) ensures Justified(p, s'.receipts, g) {
      if g.asked.None? {
        var r :| r in s.receipts && Accounts(p, r, g);
        assert r in s'.receipts;
      }
    }
  }

  lemma HitIsJustified<V(!new)>(p: Policy, s: Sys<V>, key: string, e: Entry<V>)
    requires Backed(p, s, key, e) && s.now < e.expiresAt
    ensures Justified(p, s.receipts, Given(key, ReplyIn(e), s.now, None))
  {
    var r :| r in s.receipts && Backs(p, r, key, e, s.now);
    assert Accounts(p, r, Given(key, ReplyIn(e), s.now, None));
  }

  lemma StepKeepsInv<V(!new)>(p: Policy, s: Sys<V>, a: Action<V>)
    requires Inv(p, s)
    ensures Inv(p, Step(p, s, a))
  {
    var s' := Step(p, s, a);
    if a.Advance? && a.id in s.lookups {
      AdvanceKeepsInv(p, s, a.id);
    } else {
      BackedGrows(p, s, s');
    }
  }

  lemma AdvanceKeepsInv<V(!new)>(p: Policy, s: Sys<V>, id: nat)
    requires Inv(p, s) && id in s.lookups
    ensures Inv(p, Advanced(p, s, id))
  {
    var s' := Advanced(p, s, id);
    var key := s.lookups[id].key;
    BackedGrows(p, s, s');
    match s.lookups[id].stage
    case Checking(Some(e)) =>
      if s.now < e.expiresAt {
        HitIsJustified(p, s, key, e);
      }
    case Holding(reply, receivedAt) =>
      if Cached(p, reply, s.now).Some? {
        var r := Receipt(key, reply, receivedAt, s.now);
        assert r in s'.receipts && Backs(p, r, key, Cached(p, reply, s.now).value, s'.now);
      }
    case _ =>
  }

  lemma {:induction false} RunKeepsInv<V(!new)>(p: Policy, s: Sys<V>, actions: seq<Action<V>>)
    requires Inv(p, s)
    ensures Inv(p, Run(p, s, actions))
    decreases |actions|
  {
    if actions != [] {
      StepKeepsInv(p, s, actions[0]);
      RunKeepsInv(p, Step(p, s, actions[0]), actions[1..]);
    }
  }

  // ---------------------------------------------------------------------
  // Bounded staleness
  // ---------------------------------------------------------------------

  /**
   * Every answer, in every interleaving of any number of lookups: it is the server's reply to
   * this lookup, or a reply whose lifetime, counted from the clock reading its entry was made
   * with, has not passed. Errors come from the cache never, a 404 only under its own lifetime.
   */
  lemma EveryAnswerIsFresh<V(!new)>(p: Policy, start: int, actions: seq<Action<V>>, g: Given<V>)
    requires g in Run(p, Empty<V>(start), actions).given
    ensures g.asked.Some? ==> g.answer == g.asked.value
    ensures g.asked.None? ==>
              exists r :: r in Run(p, Empty<V>(start), actions).receipts && Accounts(p, r, g)
    ensures g.asked.None? ==> !g.answer.Failed? && (g.answer.NotFound? ==> p.unknown.Some?)
  {
    RunKeepsInv(p, Empty<V>(start), actions);
    assert Justified(p, Run(p, Empty<V>(start), actions).receipts, g);
  }

  /** How long that is: for an answer the cache gives a password or a trunk less than five minutes after the
      entry was made, an unknown number less than one; an unknown user never. */
  lemma LifetimesAre<V(!new)>(start: int, actions: seq<Action<V>>, g: Given<V>)
    requires g.asked.None?
    ensures g in Run(CREDENTIALS, Empty<V>(start), actions).given ==>
              exists r :: && r in Run(CREDENTIALS, Empty<V>(start), actions).receipts && r.key == g.key
                          && r.reply == g.answer && g.answer.Found? && r.receivedAt <= r.stampedAt
                          && 0 <= g.at - r.stampedAt < 300_000_000_000
    ensures g in Run(TRUNKS, Empty<V>(start), actions).given ==>
              exists r :: && r in Run(TRUNKS, Empty<V>(start), actions).receipts && r.key == g.key
                          && r.reply == g.answer && !g.answer.Failed? && r.receivedAt <= r.stampedAt
                          && 0 <= g.at - r.stampedAt < if g.answer.Found? then 300_000_000_000 else 60_000_000_000
  {
    if g in Run(CREDENTIALS, Empty<V>(start), actions).given {
      EveryAnswerIsFresh(CREDENTIALS, start, actions, g);
      var r :| r in Run(CREDENTIALS, Empty<V>(start), actions).receipts && Accounts(CREDENTIALS, r, g);
    }
    if g in Run(TRUNKS, Empty<V>(start), actions).given {
      EveryAnswerIsFresh(TRUNKS, start, actions, g);
      var r :| r in Run(TRUNKS, Empty<V>(start), actions).receipts && Accounts(TRUNKS, r, g);
    }
  }

  /** No reply is held longer than this between its arrival and the making of its entry. */
  ghost predicate StampedWithin<V(!new)>(s: Sys<V>, delay: nat) {
    forall r :: r in s.receipts ==> r.stampedAt - r.receivedAt <= delay
  }

  ghost predicate RepliesFrom<V(!new)>(s: Sys<V>, key: string, change: int, reply: Reply<V>) {
    forall r :: r in s.receipts && r.key == key && r.receivedAt >= change ==> r.reply == reply
  }

  /**
   * Once the server has answered `reply` for a key from some time on, so does the cache: at
   * the latest five minutes, and the delay between a reply and its entry, after the change.
   */
  lemma ChangeTakesEffect<V(!new)>(p: Policy, start: int, actions: seq<Action<V>>, g: Given<V>,
                                   change: int, delay: nat, reply: Reply<V>)
    requires p == CREDENTIALS || p == TRUNKS
    requires g in Run(p, Empty<V>(start), actions).given && g.asked.None?
    requires StampedWithin(Run(p, Empty<V>(start), actions), delay)
    requires RepliesFrom(Run(p, Empty<V>(start), actions), g.key, change, reply)
    requires g.at >= change + delay + CACHE_TTL
    ensures g.answer == reply
  {
    EveryAnswerIsFresh(p, start, actions, g);
    var r :| r in Run(p, Empty<V>(start), actions).receipts && Accounts(p, r, g);
    assert Ttl(p, r.reply).value <= CACHE_TTL;
  }

  /** The answer, if it came from the cache, is a reply that the server sent less than its lifetime,
      and `slack`, earlier. */
  ghost predicate ReceivedWithin<V(!new)>(p: Policy, s: Sys<V>, g: Given<V>, slack: nat) {
    g.asked.None? ==>
      exists r :: && r in s.receipts && r.key == g.key && r.reply == g.answer && Ttl(p, r.reply).Some?
                  && r.receivedAt <= g.at < r.receivedAt + Ttl(p, r.reply).value + slack
  }

  /** An answer given in a run in which no reply was held longer than `delay`. */
  ghost predicate GivenIn<V(!new)>(p: Policy, start: int, actions: seq<Action<V>>, delay: nat, g: Given<V>) {
    g in Run(p, Empty<V>(start), actions).given && StampedWithin(Run(p, Empty<V>(start), actions), delay)
  }

  /** An answer's age, counted from the reply, is below its lifetime and that delay. */
  lemma AnswersAreReceivedWithin<V(!new)>(p: Policy, start: int, actions: seq<Action<V>>, delay: nat, g: Given<V>)
    requires GivenIn(p, start, actions, delay, g)
    ensures ReceivedWithin(p, Run(p, Empty<V>(start), actions), g, delay)
  {
    EveryAnswerIsFresh(p, start, actions, g);
    if g.asked.None? {
      var r :| r in Run(p, Empty<V>(start), actions).receipts && Accounts(p, r, g);
      assert r.receivedAt <= g.at < r.receivedAt + Ttl(p, r.reply).value + delay;
    }
  }

  /** A lookup that asks, and stores the reply a nanosecond after it came. */
  function AskedOnce<V>(start: int, v: V): Sys<V> {
    Sys(start + 1, map["k" := Entry(Some(v), start + 1 + CACHE_TTL)], map[],
        [Receipt("k", Found(v), start, start + 1)], [Given("k", Found(v), start + 1, Some(Found(v)))])
  }

  function Ask<V>(): seq<Action<V>> { [Begin(0, "k"), Advance(0), Advance(0)] }

  function SlowReply<V>(v: V): seq<Action<V>> { [Receive(0, Found(v)), Tick(1), Advance(0)] }

  function First<V>(v: V): seq<Action<V>> { Ask() + SlowReply(v) + [Advance(0)] }

  function Late<V>(): seq<Action<V>> { [Begin(1, "k"), Tick(CACHE_TTL - 1), Advance(1)] }

  lemma RunOne<V>(p: Policy, s: Sys<V>, a: Action<V>)
    ensures Run(p, s, [a]) == Step(p, s, a)
  {
  }

  lemma RunAsk<V>(p: Policy, start: int)
    ensures Run(p, Empty<V>(start), Ask()) == Sys(start, map[], map[0 := Lookup("k", Asking)], [], [])
  {
    var s0 := Empty<V>(start);
    ThreeSteps(p, s0, Begin(0, "k"), Advance(0), Advance(0));
    var s2 := Step(p, Step(p, s0, Begin(0, "k")), Advance(0));
    assert s2.lookups == map[0 := Lookup("k", Checking(None))];
  }

  lemma RunReply<V>(p: Policy, start: int, v: V)
    ensures var storing := Lookup("k", Storing(Found(v), Entry(Some(v), start + 1 + CACHE_TTL)));
            Run(p, Sys(start, map[], map[0 := Lookup("k", Asking)], [], []), SlowReply(v))
            == AskedOnce(start, v).(cache := map[], given := [], lookups := map[0 := storing])
  {
    ThreeSteps(p, Sys(start, map[], map[0 := Lookup("k", Asking)], [], []), Receive(0, Found(v)), Tick(1), Advance(0));
  }

  lemma RunFirst<V>(p: Policy, start: int, v: V)
    ensures Run(p, Empty<V>(start), First(v)) == AskedOnce(start, v)
  {
    RunAsk<V>(p, start);
    RunReply(p, start, v);
    var s6 := Run(p, Run(p, Empty<V>(start), Ask()), SlowReply(v));
    RunOne(p, s6, Advance(0));
    assert Step(p, s6, Advance(0)) == AskedOnce(start, v);
    RunAppend(p, Empty<V>(start), Ask(), SlowReply(v));
    RunAppend(p, Empty<V>(start), Ask() + SlowReply(v), [Advance(0)]);
  }

  lemma RunAgain<V>(p: Policy, start: int, v: V)
    ensures var s := Run(p, AskedOnce(start, v), Late() + [Advance(1)]);
            && s.receipts == AskedOnce(start, v).receipts
            && s.given == AskedOnce(start, v).given + [Given("k", Found(v), start + CACHE_TTL, None)]
  {
    var s := AskedOnce(start, v);
    ThreeSteps(p, s, Begin(1, "k"), Tick(CACHE_TTL - 1), Advance(1));
    var s3 := Run(p, s, Late());
    assert s3 == s.(now := start + CACHE_TTL,
                    lookups := map[1 := Lookup("k", Checking(Some(Entry(Some(v), start + 1 + CACHE_TTL))))]);
    RunOne(p, s3, Advance(1));
    RunAppend(p, s, Late(), [Advance(1)]);
  }

  /** The lifetime counts from the entry, not from the reply: an answer can be five minutes old. */
  lemma LifetimeCountsFromTheEntry<V>(p: Policy, start: int, v: V)
    ensures var s := Run(p, Empty<V>(start), First(v) + (Late() + [Advance(1)]));
            && s.receipts == [Receipt("k", Found(v), start, start + 1)]
            && Given("k", Found(v), start + CACHE_TTL, None) in s.given
  {
    RunFirst(p, start, v);
    RunAgain(p, start, v);
    RunAppend(p, Empty<V>(start), First(v), Late() + [Advance(1)]);
  }

  /** Every answer from the cache is a reply sent less than its lifetime earlier, over all runs in which
      no reply is held longer than `delay`, exactly when there is no such delay. */
  lemma {:induction false} FreshFromArrivalIff<V(!new)>(p: Policy, delay: nat, v: V)
    ensures (forall start, actions: seq<Action<V>>, g :: GivenIn(p, start, actions, delay, g) ==>
               ReceivedWithin(p, Run(p, Empty<V>(start), actions), g, 0))
            <==> delay == 0
  {
    if delay == 0 {
      forall start, actions: seq<Action<V>>, g | GivenIn(p, start, actions, delay, g)
        ensures ReceivedWithin(p, Run(p, Empty<V>(start), actions), g, 0)
      {
        AnswersAreReceivedWithin(p, start, actions, delay, g);
      }
    } else {
      LifetimeCountsFromTheEntry(p, 0, v);
      var actions, g := First(v) + (Late() + [Advance(1)]), Given("k", Found(v), CACHE_TTL, None);
      assert GivenIn(p, 0, actions, delay, g);
      assert !ReceivedWithin(p, Run(p, Empty<V>(0), actions), g, 0);
    }
  }

  // ---------------------------------------------------------------------
  // An uninterrupted lookup
  // ---------------------------------------------------------------------

  /** The steps of one lookup, from a state with no other. */
  function Alone<V>(s: Sys<V>, key: string, reply: Reply<V>, elapsed: nat): seq<Action<V>> {
    if Hit(s.cache, key, s.now) then [Begin(0, key), Advance(0), Advance(0)]
    else
      (if key in s.cache then [Begin(0, key), Advance(0), Advance(0), Advance(0)]
       else [Begin(0, key), Advance(0), Advance(0)])
      + [Receive(0, reply), Tick(elapsed), Advance(0), Advance(0)]
  }

  lemma RunAppend<V>(p: Policy, s: Sys<V>, a: seq<Action<V>>, b: seq<Action<V>>)
    ensures Run(p, s, a + b) == Run(p, Run(p, s, a), b)
    decreases |a|
  {
    if a == [] {
      assert a + b == b;
    } else {
      assert (a + b)[1..] == a[1..] + b;
      RunAppend(p, Step(p, s, a[0]), a[1..], b);
    }
  }

  /** Uninterrupted, the steps do what the lookup as one call does. */
  lemma AloneIsTheCall<V>(p: Policy, s: Sys<V>, key: string, reply: Reply<V>, elapsed: nat)
    requires s.lookups == map[]
    ensures var s' := Run(p, s, Alone(s, key, reply, elapsed));
            && s'.cache == After(p, s.cache, key, s.now, reply, s.now + elapsed)
            && |s'.given| == |s.given| + 1 && s'.given[|s.given|].answer == Replied(s.cache, key, s.now, reply)
  {
    var s1 := Step(p, s, Begin(0, key));
    var s2 := Step(p, s1, Advance(0));
    var s3 := Step(p, s2, Advance(0));
    ThreeSteps(p, s, Begin(0, key), Advance(0), Advance(0));
    if !Hit(s.cache, key, s.now) {
      var tail: seq<Action<V>> := [Receive(0, reply), Tick(elapsed), Advance(0), Advance(0)];
      var head: seq<Action<V>> := [Begin(0, key), Advance(0), Advance(0)];
      if key in s.cache {
        var s4 := Step(p, s3, Advance(0));
        RunAppend(p, s, head, [Advance(0)]);
        assert Run(p, s3, [Advance(0)]) == s4;
        assert head + [Advance(0)] == [Begin(0, key), Advance(0), Advance(0), Advance(0)];
        RunAppend(p, s, head + [Advance(0)], tail);
        AskAlone(p, s4, key, reply, elapsed);
      } else {
        assert s.cache - {key} == s.cache;
        RunAppend(p, s, head, tail);
        AskAlone(p, s3, key, reply, elapsed);
      }
    }
  }

  lemma ThreeSteps<V>(p: Policy, s: Sys<V>, a: Action<V>, b: Action<V>, c: Action<V>)
    ensures Run(p, s, [a, b, c]) == Step(p, Step(p, Step(p, s, a), b), c)
  {
    assert [a, b, c][1..] == [b, c] && [b, c][1..] == [c] && [c][1..] == [];
    assert Run(p, Step(p, s, a), [b, c]) == Run(p, Step(p, Step(p, s, a), b), [c]);
  }

  lemma AskAlone<V>(p: Policy, s: Sys<V>, key: string, reply: Reply<V>, elapsed: nat)
    requires s.lookups == map[0 := Lookup(key, Asking)]
    ensures var s' := Run(p, s, [Receive(0, reply), Tick(elapsed), Advance(0), Advance(0)]);
            && s'.cache == (match Cached(p, reply, s.now + elapsed)
                            case None => s.cache
                            case Some(e) => s.cache[key := e])
            && |s'.given| == |s.given| + 1 && s'.given[|s.given|].answer == reply
  {
    var tail: seq<Action<V>> := [Receive(0, reply), Tick(elapsed), Advance(0)];
    ThreeSteps(p, s, Receive(0, reply), Tick(elapsed), Advance(0));
    RunAppend(p, s, tail, [Advance(0)]);
    assert tail + [Advance(0)] == [Receive(0, reply), Tick(elapsed), Advance(0), Advance(0)];
    var s3 := Run(p, s, tail);
    assert Run(p, s3, [Advance(0)]) == Step(p, s3, Advance(0));
  }
}
