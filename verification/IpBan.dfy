/** Banning of source IPs that fail too often: tumbling failure windows, bans that
    double up to a cap, and a sweep of the sources with nothing left to remember. */
module IpBan {
  import opened Text

  // Times and durations are in nanoseconds; 0 is Go's zero time.
  const MAX_BAN: int := 24 * 60 * 60 * 1_000_000_000

  datatype Config = Config(maxFailures: int, window: int, banTime: int)

  /** The settings newIPBan accepts; any other turns banning off. */
  predicate Valid(cfg: Config) {
    cfg.maxFailures > 0 && 0 < cfg.window <= MAX_INT64 && 0 < cfg.banTime <= MAX_INT64
  }

  datatype Record = Record(failures: int, windowStart: int, bans: int, bannedUntil: int)

  const NEW_RECORD := Record(0, 0, 0, 0)

  /** time.Sub saturates at the ends of a Duration. */
  function Sub(t: int, u: int): int {
    if t - u > MAX_INT64 then MAX_INT64 else if t - u < -MAX_INT64 - 1 then -MAX_INT64 - 1 else t - u
  }

  function Min(a: int, b: int): int { if a < b then a else b }

  function Pow2(n: nat): nat { if n == 0 then 1 else 2 * Pow2(n - 1) }

  /** What the doubling loop computes: min(banTime * 2^bans, 24 h). */
  function BanLength(banTime: int, bans: nat): int { Min(banTime * Pow2(bans), MAX_BAN) }

  lemma Pow2Grows(m: nat, n: nat)
    requires m <= n
    ensures 1 <= Pow2(m) <= Pow2(n)
  {
    if m < n {
      Pow2Grows(m, n - 1);
    }
  }

  /** Once past the cap, more doublings change nothing. */
  lemma CappedStays(banTime: int, m: nat, n: nat)
    requires banTime > 0 && m <= n && banTime * Pow2(m) >= MAX_BAN
    ensures BanLength(banTime, n) == MAX_BAN
  {
    Pow2Grows(m, n);
    ProductGrows(banTime, Pow2(m), Pow2(n));
  }

  lemma ProductGrows(x: nat, a: nat, b: nat)
    requires a <= b
    ensures x * a <= x * b
  {
    assert x * b == x * a + x * (b - a);
  }

  /** The doubling loop. `peak` is the largest value it ever forms. */
  method DoubledBan(banTime: int, bans: nat) returns (ban: int, ghost peak: int)
    requires 0 < banTime <= MAX_INT64
    ensures ban == BanLength(banTime, bans)
    ensures 0 < ban <= 24 * 60 * 60 * 1_000_000_000
    ensures peak < 48 * 60 * 60 * 1_000_000_000 || peak == banTime
  {
    ban := banTime;
    peak := ban;
    var i := 0;
    while i < bans && ban < MAX_BAN
      invariant 0 <= i <= bans && ban == banTime * Pow2(i)
      invariant ban <= peak && (peak < 2 * MAX_BAN || peak == banTime)
      invariant i > 0 ==> peak < 2 * MAX_BAN
    {
      ban := ban * 2;
      peak := if ban > peak then ban else peak;
      i := i + 1;
    }
    if i < bans {
      CappedStays(banTime, i, bans);
    }
    Pow2Grows(0, i);
    ban := Min(ban, MAX_BAN);
  }

  // ---------------------------------------------------------------------
  // One source's record
  // ---------------------------------------------------------------------

  predicate InBan(r: Record, now: int) { now < r.bannedUntil }

  function Counted(cfg: Config, r: Record, now: int): Record {
    var r1 := if r.bans > 0 && Sub(now, r.bannedUntil) >= MAX_BAN then r.(bans := 0) else r;
    var r2 := if Sub(now, r1.windowStart) >= cfg.window then r1.(failures := 0, windowStart := now) else r1;
    r2.(failures := r2.failures + 1)
  }

  function FailRecord(cfg: Config, r: Record, now: int): Record
    requires r.bans >= 0
  {
    if InBan(r, now) then r
    else
      var r' := Counted(cfg, r, now);
      if r'.failures < cfg.maxFailures then r'
      else r'.(failures := 0, bans := r'.bans + 1, bannedUntil := now + BanLength(cfg.banTime, r'.bans))
  }

  /** A failure that starts a ban. */
  predicate StartsBan(cfg: Config, r: Record, now: int) {
    !InBan(r, now) && Counted(cfg, r, now).failures >= cfg.maxFailures
  }

  /** Nothing left to remember, so sweep may delete the record. */
  predicate Forgettable(cfg: Config, r: Record, now: int) {
    Sub(now, r.windowStart) >= cfg.window && (r.bans == 0 || Sub(now, r.bannedUntil) >= MAX_BAN)
  }

  // ---------------------------------------------------------------------
  // All sources
  // ---------------------------------------------------------------------

  type Sources = map<string, Record>

  datatype BanList = BanList(sources: Sources, lastSweep: int)

  const NO_BANS := BanList(map[], 0)

  function Get(m: Sources, ip: string): Record { if ip in m then m[ip] else NEW_RECORD }

  function Swept(cfg: Config, m: Sources, now: int): Sources {
    map ip | ip in m && !Forgettable(cfg, m[ip], now) :: m[ip]
  }

  function Sweep(cfg: Config, b: BanList, now: int): BanList {
    if Sub(now, b.lastSweep) < cfg.window then b else BanList(Swept(cfg, b.sources, now), now)
  }

  predicate WellFormed(m: Sources) { forall ip :: ip in m ==> m[ip].bans >= 0 }

  /** Fail without the sweep. */
  function Count(cfg: Config, m: Sources, ip: string, now: int): Sources
    requires WellFormed(m)
  {
    m[ip := FailRecord(cfg, Get(m, ip), now)]
  }

  function FailAll(cfg: Config, b: BanList, ip: string, now: int, never: bool): BanList
    requires WellFormed(b.sources)
  {
    if ip == "" || never then b
    else
      var b' := Sweep(cfg, b, now);
      BanList(Count(cfg, b'.sources, ip, now), b'.lastSweep)
  }

  predicate IsBanned(m: Sources, ip: string, now: int) { ip in m && InBan(m[ip], now) }

  class IPBan {
    const cfg: Config
    var sources: Sources
    var lastSweep: int

    predicate Ok()
      reads this
    {
      Valid(cfg) && WellFormed(sources)
    }

    function State(): BanList
      reads this
    {
      BanList(sources, lastSweep)
    }

    constructor (cfg: Config)
      requires Valid(cfg)
      ensures Ok() && State() == NO_BANS && this.cfg == cfg
    {
      this.cfg := cfg;
      sources, lastSweep := map[], 0;
    }

    method Banned(ip: string, now: int) returns (banned: bool)
      ensures banned == IsBanned(sources, ip, now)
    {
      banned := ip in sources && now < sources[ip].bannedUntil;
    }

    /** Fail; `never` is neverBan(ip). */
    method Fail(ip: string, now: int, never: bool)
      requires Ok()
      modifies this
      ensures Ok() && State() == FailAll(cfg, old(State()), ip, now, never)
    {
      if ip == "" || never {
        return;
      }
      SweepSources(now);
      var r := if ip in sources then sources[ip] else Record(0, 0, 0, 0);
      if now < r.bannedUntil {
        sources := sources[ip := r];
        return;
      }
      if r.bans > 0 && Sub(now, r.bannedUntil) >= MAX_BAN {
        r := r.(bans := 0);
      }
      if Sub(now, r.windowStart) >= cfg.window {
        r := r.(failures := 0, windowStart := now);
      }
      r := r.(failures := r.failures + 1);
      if r.failures < cfg.maxFailures {
        sources := sources[ip := r];
        return;
      }
      var ban, _ := DoubledBan(cfg.banTime, r.bans);
      r := r.(bans := r.bans + 1, bannedUntil := now + ban);
      sources := sources[ip := r.(failures := 0)];
    }

    method SweepSources(now: int)
      requires Ok()
      modifies this
      ensures Ok() && State() == Sweep(cfg, old(State()), now)
    {
      if Sub(now, lastSweep) < cfg.window {
        return;
      }
      lastSweep := now;
      var todo := sources.Keys;
      ghost var was := sources;
      while todo != {}
        invariant Ok() && lastSweep == now && todo <= was.Keys
        invariant sources == map ip | ip in was && (ip in todo || !Forgettable(cfg, was[ip], now)) :: was[ip]
        decreases todo
      {
        var ip :| ip in todo;
        var r := sources[ip];
        var windowOver := Sub(now, r.windowStart) >= cfg.window;
        if windowOver && (r.bans == 0 || Sub(now, r.bannedUntil) >= MAX_BAN) {
          sources := sources - {ip};
        }
        todo := todo - {ip};
      }
    }
  }

  // ---------------------------------------------------------------------
  // Runs, with and without the sweep
  // ---------------------------------------------------------------------

  datatype Event = FailAt(ip: string, now: int, never: bool) | AskAt(ip: string, now: int)

  /** What a caller can observe: Banned's answer, or after a Fail when the source's ban ends. */
  datatype Seen = Answer(banned: bool) | BanEnds(until: Option<int>)

  function BanEnd(m: Sources, ip: string, now: int): Seen {
    BanEnds(if IsBanned(m, ip, now) then Some(m[ip].bannedUntil) else None)
  }

  function StepSwept(cfg: Config, b: BanList, e: Event): (BanList, Seen)
    requires WellFormed(b.sources)
  {
    match e
    case AskAt(ip, now) => (b, Answer(IsBanned(b.sources, ip, now)))
    case FailAt(ip, now, never) =>
      var b' := FailAll(cfg, b, ip, now, never);
      (b', BanEnd(b'.sources, ip, now))
  }

  function StepKept(cfg: Config, m: Sources, e: Event): (Sources, Seen)
    requires WellFormed(m)
  {
    match e
    case AskAt(ip, now) => (m, Answer(IsBanned(m, ip, now)))
    case FailAt(ip, now, never) =>
      var m' := if ip == "" || never then m else Count(cfg, m, ip, now);
      (m', BanEnd(m', ip, now))
  }

  lemma StepsStayWellFormed(cfg: Config, b: BanList, m: Sources, e: Event)
    requires WellFormed(b.sources) && WellFormed(m)
    ensures WellFormed(StepSwept(cfg, b, e).0.sources) && WellFormed(StepKept(cfg, m, e).0)
  {
  }

  /** The state after the events, and what was seen on the way. */
  function RunSwept(cfg: Config, b: BanList, es: seq<Event>): (r: (BanList, seq<Seen>))
    requires WellFormed(b.sources)
    ensures WellFormed(r.0.sources)
    decreases |es|
  {
    if es == [] then (b, [])
    else
      StepsStayWellFormed(cfg, b, map[], es[0]);
      var rest := RunSwept(cfg, StepSwept(cfg, b, es[0]).0, es[1..]);
      (rest.0, [StepSwept(cfg, b, es[0]).1] + rest.1)
  }

  function RunKept(cfg: Config, m: Sources, es: seq<Event>): (r: (Sources, seq<Seen>))
    requires WellFormed(m)
    ensures WellFormed(r.0)
    decreases |es|
  {
    if es == [] then (m, [])
    else
      StepsStayWellFormed(cfg, NO_BANS, m, es[0]);
      var rest := RunKept(cfg, StepKept(cfg, m, es[0]).0, es[1..]);
      (rest.0, [StepKept(cfg, m, es[0]).1] + rest.1)
  }

  /** The clock does not run backwards, and it has left Go's zero time more than a Duration behind. */
  predicate ClockFrom(t: int, es: seq<Event>) {
    && t >= MAX_INT64
    && (forall k :: 0 <= k < |es| ==> es[k].now >= t)
    && (forall j, k :: 0 <= j < k < |es| ==> es[j].now <= es[k].now)
  }

  /** Same behaviour from `now` on: the same record, or one that has been forgotten
      where the other has nothing left to remember; a ban end in the past of a
      source with no bans does not matter. */
  predicate SameRecord(r: Record, k: Record, now: int) {
    && r.failures == k.failures && r.windowStart == k.windowStart && r.bans == k.bans
    && (r.bannedUntil == k.bannedUntil || (r.bans == 0 && r.bannedUntil <= now && k.bannedUntil <= now))
  }

  ghost predicate Simulates(cfg: Config, swept: Sources, kept: Sources, now: int) {
    && WellFormed(swept) && WellFormed(kept)
    && (forall ip :: ip in swept ==> ip in kept && SameRecord(swept[ip], kept[ip], now))
    && (forall ip :: ip in kept && ip !in swept ==> Forgettable(cfg, kept[ip], now) && kept[ip].bannedUntil <= now)
    && (forall ip :: ip in kept && kept[ip].bans == 0 ==> kept[ip].bannedUntil <= now)
  }

  /** A failure is treated alike by a forgotten source and by the record it had. */
  lemma SameFail(cfg: Config, r: Record, k: Record, now: int)
    requires Valid(cfg) && now >= MAX_INT64 && r.bans >= 0 && k.bans >= 0
    requires SameRecord(r, k, now) || (r == NEW_RECORD && Forgettable(cfg, k, now) && k.bannedUntil <= now)
    ensures SameRecord(FailRecord(cfg, r, now), FailRecord(cfg, k, now), now)
    ensures InBan(FailRecord(cfg, r, now), now) ==>
              FailRecord(cfg, r, now).bannedUntil == FailRecord(cfg, k, now).bannedUntil
  {
  }

  lemma SweepKeepsSimulation(cfg: Config, b: BanList, kept: Sources, now: int)
    requires Valid(cfg) && now >= MAX_INT64 && Simulates(cfg, b.sources, kept, now)
    ensures Simulates(cfg, Sweep(cfg, b, now).sources, kept, now)
  {
  }

  lemma FailKeepsSimulation(cfg: Config, b: BanList, kept: Sources, ip: string, now: int)
    requires Valid(cfg) && now >= MAX_INT64 && Simulates(cfg, b.sources, kept, now)
    ensures Simulates(cfg, Count(cfg, b.sources, ip, now), Count(cfg, kept, ip, now), now)
    ensures BanEnd(Count(cfg, b.sources, ip, now), ip, now) == BanEnd(Count(cfg, kept, ip, now), ip, now)
  {
    SameFail(cfg, Get(b.sources, ip), Get(kept, ip), now);
  }

  lemma {:induction false} StepKeepsSimulation(cfg: Config, b: BanList, kept: Sources, t: int, e: Event)
    requires Valid(cfg) && MAX_INT64 <= t <= e.now && Simulates(cfg, b.sources, kept, t)
    ensures Simulates(cfg, StepSwept(cfg, b, e).0.sources, StepKept(cfg, kept, e).0, e.now)
    ensures StepSwept(cfg, b, e).1 == StepKept(cfg, kept, e).1
  {
    assert Simulates(cfg, b.sources, kept, e.now);
    if e.FailAt? && e.ip != "" && !e.never {
      SweepKeepsSimulation(cfg, b, kept, e.now);
      FailKeepsSimulation(cfg, Sweep(cfg, b, e.now), kept, e.ip, e.now);
    }
  }

  lemma {:induction false} RunsAgree(cfg: Config, b: BanList, kept: Sources, t: int, es: seq<Event>)
    requires Valid(cfg) && ClockFrom(t, es) && Simulates(cfg, b.sources, kept, t)
    ensures RunSwept(cfg, b, es).1 == RunKept(cfg, kept, es).1
    ensures exists now :: Simulates(cfg, RunSwept(cfg, b, es).0.sources, RunKept(cfg, kept, es).0, now)
                          && now == if es == [] then t else es[|es| - 1].now
    decreases |es|
  {
    if es != [] {
      StepKeepsSimulation(cfg, b, kept, t, es[0]);
      assert ClockFrom(es[0].now, es[1..]);
      RunsAgree(cfg, StepSwept(cfg, b, es[0]).0, StepKept(cfg, kept, es[0]).0, es[0].now, es[1..]);
    }
  }

  /** The sweep cannot be observed: with a clock that does not run backwards, every
      answer of Banned and every ban end is the same as if nothing were ever deleted. */
  lemma SweepIsUnobservable(cfg: Config, t: int, es: seq<Event>)
    requires Valid(cfg) && ClockFrom(t, es)
    ensures RunSwept(cfg, NO_BANS, es).1 == RunKept(cfg, map[], es).1
  {
    RunsAgree(cfg, NO_BANS, map[], t, es);
  }

  /** The sweep keeps the list small: after the failure of a source that comes at least a window after the last
      sweep, every other record left is of a source with a failure counted in a window still open, or with
      a ban that ended less than 24 h ago or has not. */
  lemma SweepForgets(cfg: Config, b: BanList, ip: string, now: int, other: string)
    requires Valid(cfg) && WellFormed(b.sources) && ip != "" && other != ip
    requires now >= MAX_INT64 && now - b.lastSweep >= cfg.window
    ensures var after := FailAll(cfg, b, ip, now, false);
            && after.lastSweep == now
            && (other in after.sources ==>
                  && other in b.sources && after.sources[other] == b.sources[other]
                  && var r := after.sources[other];
                     now - r.windowStart < cfg.window
                     || (r.bans > 0 && now - r.bannedUntil < 24 * 60 * 60 * 1_000_000_000))
            && (other in b.sources && now - b.sources[other].windowStart < cfg.window ==> other in after.sources)
  {
  }

  /** Fail reads the clock before it takes the lock, so two of them can be counted
      out of order; then the sweep can be observed: here the second failure of a
      source is counted after a later one of another source has swept its record away. */
  lemma SkewedClockExposesSweep()
    ensures var cfg := Config(2, 10, 5);
            var t := MAX_INT64;
            var es := [FailAt("a", t, false), FailAt("b", t + 10, false), FailAt("a", t + 9, false)];
            Valid(cfg) && RunSwept(cfg, NO_BANS, es).1 != RunKept(cfg, map[], es).1
  {
    var cfg, t := Config(2, 10, 5), MAX_INT64;
    var e0, e1, e2 := FailAt("a", t, false), FailAt("b", t + 10, false), FailAt("a", t + 9, false);
    var es := [e0, e1, e2];
    var b1 := StepSwept(cfg, NO_BANS, e0).0;
    var b2 := StepSwept(cfg, b1, e1).0;
    var k1 := StepKept(cfg, map[], e0).0;
    var k2 := StepKept(cfg, k1, e1).0;
    assert !IsBanned(StepSwept(cfg, b2, e2).0.sources, "a", t + 9) by {
      assert "a" !in b2.sources;
    }
    assert IsBanned(StepKept(cfg, k2, e2).0, "a", t + 9) by {
      assert k2["a"] == Record(1, t, 0, 0) && Pow2(0) == 1;
    }
    assert es[1..] == [e1, e2] && [e1, e2][1..] == [e2] && [e2][1..] == [];
    assert RunSwept(cfg, b2, [e2]).1 == [StepSwept(cfg, b2, e2).1];
    assert RunSwept(cfg, b1, [e1, e2]).1[1] == StepSwept(cfg, b2, e2).1;
    assert RunSwept(cfg, NO_BANS, es).1[2] == StepSwept(cfg, b2, e2).1;
    assert RunKept(cfg, k2, [e2]).1 == [StepKept(cfg, k2, e2).1];
    assert RunKept(cfg, k1, [e1, e2]).1[1] == StepKept(cfg, k2, e2).1;
    assert RunKept(cfg, map[], es).1[2] == StepKept(cfg, k2, e2).1;
  }
}
