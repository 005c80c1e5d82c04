/** What a source's bans cost it: every ban is paid for by its own failures, and
    enough failures always bring a ban. Stated over the times of all the counted
    failures (not exempt) of one source, from the beginning. */
module IpBanHistory {
  import opened Text
  import opened IpBan

  predicate Ordered(ts: seq<int>) {
    && (forall i :: 0 <= i < |ts| ==> ts[i] >= MAX_INT64)
    && (forall i, j :: 0 <= i < j < |ts| ==> ts[i] <= ts[j])
  }

  /** The source's record after its first k failures. */
  function After(cfg: Config, ts: seq<int>, k: nat): (r: Record)
    requires k <= |ts|
    ensures r.bans >= 0
  {
    if k == 0 then NEW_RECORD else FailRecord(cfg, After(cfg, ts, k - 1), ts[k - 1])
  }

  /** Failure k falls in a ban, and is dropped. */
  predicate Dropped(cfg: Config, ts: seq<int>, k: nat)
    requires k < |ts|
  {
    InBan(After(cfg, ts, k), ts[k])
  }

  /** Failure k starts a ban. */
  predicate Bans(cfg: Config, ts: seq<int>, k: nat)
    requires k < |ts|
  {
    StartsBan(cfg, After(cfg, ts, k), ts[k])
  }

  /** Failure k opens a new window. */
  predicate Opens(cfg: Config, ts: seq<int>, k: nat)
    requires k < |ts|
  {
    !Dropped(cfg, ts, k) && Sub(ts[k], After(cfg, ts, k).windowStart) >= cfg.window
  }

  /** The failures counted in the current window and not yet paid with, after the first k. */
  function Charged(cfg: Config, ts: seq<int>, k: nat): seq<nat>
    requires k <= |ts|
    decreases k, 0
  {
    if k == 0 then []
    else if Dropped(cfg, ts, k - 1) then Charged(cfg, ts, k - 1)
    else if Bans(cfg, ts, k - 1) then []
    else ChargedWith(cfg, ts, k - 1)
  }

  /** The failures counted once failure k is, before a ban takes them. */
  function ChargedWith(cfg: Config, ts: seq<int>, k: nat): seq<nat>
    requires k < |ts|
    decreases k, 1
  {
    (if Opens(cfg, ts, k) then [] else Charged(cfg, ts, k)) + [k]
  }

  /** The last ban before failure k, or -1. */
  function LastBan(cfg: Config, ts: seq<int>, k: nat): int
    requires k <= |ts|
  {
    if k == 0 then -1 else if Bans(cfg, ts, k - 1) then k - 1 else LastBan(cfg, ts, k - 1)
  }

  lemma LastBanIsLast(cfg: Config, ts: seq<int>, k: nat, b: nat)
    requires b < k <= |ts| && Bans(cfg, ts, b)
    ensures b <= LastBan(cfg, ts, k) < k
  {
  }

  /** Increasing indices of undropped failures, all after `floor`, inside one window. */
  predicate InOneWindow(cfg: Config, ts: seq<int>, paid: seq<nat>, floor: int, start: int) {
    && (forall i :: 0 <= i < |paid| ==> floor < paid[i] < |ts| && !Dropped(cfg, ts, paid[i]))
    && (forall i, j :: 0 <= i < j < |paid| ==> paid[i] < paid[j])
    && (forall i :: 0 <= i < |paid| ==> start <= ts[paid[i]] && ts[paid[i]] - start < cfg.window)
  }

  predicate ChargedOk(cfg: Config, ts: seq<int>, k: nat)
    requires k <= |ts|
  {
    var c, r := Charged(cfg, ts, k), After(cfg, ts, k);
    && |c| == r.failures && r.failures < cfg.maxFailures
    && InOneWindow(cfg, ts, c, LastBan(cfg, ts, k), r.windowStart)
    && (forall i :: 0 <= i < |c| ==> c[i] < k)
    && (forall j :: k <= j < |ts| ==> r.windowStart <= ts[j])
    && LastBan(cfg, ts, k) < k
  }

  predicate ChargedWithOk(cfg: Config, ts: seq<int>, k: nat)
    requires k < |ts|
  {
    var c, r := ChargedWith(cfg, ts, k), Counted(cfg, After(cfg, ts, k), ts[k]);
    && |c| == r.failures && r.failures <= cfg.maxFailures
    && InOneWindow(cfg, ts, c, LastBan(cfg, ts, k), r.windowStart)
    && (forall i :: 0 <= i < |c| ==> c[i] <= k)
    && (forall j :: k <= j < |ts| ==> r.windowStart <= ts[j])
  }

  lemma CountingKeepsCharges(cfg: Config, ts: seq<int>, k: nat)
    requires Valid(cfg) && Ordered(ts) && k < |ts| && ChargedOk(cfg, ts, k) && !Dropped(cfg, ts, k)
    ensures ChargedWithOk(cfg, ts, k)
  {
    var r := After(cfg, ts, k);
    assert ChargedWith(cfg, ts, k) == (if Opens(cfg, ts, k) then [] else Charged(cfg, ts, k)) + [k];
    if Opens(cfg, ts, k) {
      assert Counted(cfg, r, ts[k]).windowStart == ts[k] && Counted(cfg, r, ts[k]).failures == 1;
    } else {
      WindowStillOpen(cfg, ts, k);
    }
  }

  lemma WindowStillOpen(cfg: Config, ts: seq<int>, k: nat)
    requires Valid(cfg) && Ordered(ts) && k < |ts| && ChargedOk(cfg, ts, k)
    requires !Dropped(cfg, ts, k) && !Opens(cfg, ts, k)
    ensures var r := After(cfg, ts, k);
            && Counted(cfg, r, ts[k]).windowStart == r.windowStart && Counted(cfg, r, ts[k]).failures == r.failures + 1
            && r.windowStart <= ts[k] && ts[k] - r.windowStart < cfg.window
  {
  }

  lemma DroppedChargesNothing(cfg: Config, ts: seq<int>, k: nat)
    requires k < |ts| && Dropped(cfg, ts, k)
    ensures Charged(cfg, ts, k + 1) == Charged(cfg, ts, k)
    ensures After(cfg, ts, k + 1) == After(cfg, ts, k) && LastBan(cfg, ts, k + 1) == LastBan(cfg, ts, k)
  {
  }

  lemma BanClearsCharges(cfg: Config, ts: seq<int>, k: nat)
    requires Valid(cfg) && k < |ts| && Bans(cfg, ts, k) && ChargedWithOk(cfg, ts, k)
    ensures ChargedOk(cfg, ts, k + 1)
  {
    assert Charged(cfg, ts, k + 1) == [];
  }

  lemma CountingCharges(cfg: Config, ts: seq<int>, k: nat)
    requires k < |ts| && !Dropped(cfg, ts, k) && !Bans(cfg, ts, k) && ChargedWithOk(cfg, ts, k)
    requires LastBan(cfg, ts, k) < k
    ensures ChargedOk(cfg, ts, k + 1)
  {
    assert Charged(cfg, ts, k + 1) == ChargedWith(cfg, ts, k);
    assert After(cfg, ts, k + 1) == Counted(cfg, After(cfg, ts, k), ts[k]);
    assert LastBan(cfg, ts, k + 1) == LastBan(cfg, ts, k);
  }

  lemma FailureKeepsCharges(cfg: Config, ts: seq<int>, k: nat)
    requires Valid(cfg) && Ordered(ts) && k < |ts| && ChargedOk(cfg, ts, k)
    ensures ChargedOk(cfg, ts, k + 1)
  {
    if Dropped(cfg, ts, k) {
      DroppedChargesNothing(cfg, ts, k);
    } else {
      CountingKeepsCharges(cfg, ts, k);
      if Bans(cfg, ts, k) {
        BanClearsCharges(cfg, ts, k);
      } else {
        CountingCharges(cfg, ts, k);
      }
    }
  }

  lemma {:induction false} ChargedIsOk(cfg: Config, ts: seq<int>, k: nat)
    requires Valid(cfg) && Ordered(ts) && k <= |ts|
    ensures ChargedOk(cfg, ts, k)
  {
    if k > 0 {
      ChargedIsOk(cfg, ts, k - 1);
      FailureKeepsCharges(cfg, ts, k - 1);
    }
  }

  lemma FailuresStayBelowLimit(cfg: Config, ts: seq<int>, k: nat)
    requires Valid(cfg) && Ordered(ts) && k <= |ts|
    ensures 0 <= After(cfg, ts, k).failures < cfg.maxFailures
  {
    ChargedIsOk(cfg, ts, k);
  }

  /** The failures a ban is paid with. */
  function Paid(cfg: Config, ts: seq<int>, k: nat): seq<nat>
    requires k < |ts|
  {
    ChargedWith(cfg, ts, k)
  }

  /** Every ban is paid for by exactly maxFailures failures of that source, the last
      of them the one that starts it: none was dropped, all fall in less than one
      window, and none precedes an earlier ban. */
  lemma BanIsPaidFor(cfg: Config, ts: seq<int>, k: nat)
    requires Valid(cfg) && Ordered(ts) && k < |ts| && Bans(cfg, ts, k)
    ensures var paid := Paid(cfg, ts, k);
            && |paid| == cfg.maxFailures && paid[|paid| - 1] == k
            && (forall i :: 0 <= i < |paid| ==> paid[i] <= k && !Dropped(cfg, ts, paid[i]))
            && (forall i, j :: 0 <= i < j < |paid| ==> paid[i] < paid[j])
            && ts[k] - ts[paid[0]] < cfg.window
            && (forall b :: 0 <= b < k && Bans(cfg, ts, b) ==> b < paid[0])
  {
    ChargedIsOk(cfg, ts, k);
    CountingKeepsCharges(cfg, ts, k);
    var paid := Paid(cfg, ts, k);
    forall b | 0 <= b < k && Bans(cfg, ts, b) ensures b < paid[0] {
      LastBanIsLast(cfg, ts, k, b);
    }
  }

  /** So no failure is charged to two bans. */
  lemma ChargedOnce(cfg: Config, ts: seq<int>, k: nat, k': nat, f: nat)
    requires Valid(cfg) && Ordered(ts) && k < k' < |ts| && Bans(cfg, ts, k) && Bans(cfg, ts, k')
    ensures !(f in Paid(cfg, ts, k) && f in Paid(cfg, ts, k'))
  {
    BanIsPaidFor(cfg, ts, k);
    BanIsPaidFor(cfg, ts, k');
  }

  // ---------------------------------------------------------------------
  // The converse: enough failures always bring a ban
  // ---------------------------------------------------------------------

  /** None of the failures a..b is dropped or starts a ban. */
  predicate Unpunished(cfg: Config, ts: seq<int>, a: nat, b: nat)
    requires b < |ts|
  {
    forall k :: a <= k <= b ==> !Dropped(cfg, ts, k) && !Bans(cfg, ts, k)
  }

  /** Failures a+1..k open no window, so all of a..k are counted together. */
  lemma {:induction false} CountedTogether(cfg: Config, ts: seq<int>, a: nat, k: nat)
    requires Valid(cfg) && Ordered(ts) && a <= k < |ts| && Unpunished(cfg, ts, a, k)
    requires forall i :: a < i <= k ==> !Opens(cfg, ts, i)
    ensures k - a + 1 <= After(cfg, ts, k + 1).failures < cfg.maxFailures
    ensures After(cfg, ts, k + 1).windowStart == After(cfg, ts, a + 1).windowStart
  {
    FailuresStayBelowLimit(cfg, ts, k + 1);
    FailuresStayBelowLimit(cfg, ts, k);
    assert !Dropped(cfg, ts, k) && !Bans(cfg, ts, k);
    assert After(cfg, ts, k + 1) == Counted(cfg, After(cfg, ts, k), ts[k]);
    if k > a {
      CountedTogether(cfg, ts, a, k - 1);
      assert !Opens(cfg, ts, k) && After(cfg, ts, k - 1 + 1) == After(cfg, ts, k);
    }
  }

  /** A window that a failure opened lasts: no later failure within it opens another. */
  lemma {:induction false} WindowLasts(cfg: Config, ts: seq<int>, p: nat, k: nat)
    requires Valid(cfg) && Ordered(ts) && p < k < |ts| && Opens(cfg, ts, p) && ts[k] - ts[p] < cfg.window
    ensures !Opens(cfg, ts, k) && After(cfg, ts, k).windowStart == ts[p]
  {
    if k > p + 1 {
      WindowLasts(cfg, ts, p, k - 1);
    }
  }

  /** Among any 2 * maxFailures - 1 failures in a row of one source, in less than one
      window, at least one falls in a ban or starts one. */
  lemma EnoughFailuresBringABan(cfg: Config, ts: seq<int>, a: nat, b: nat)
    requires Valid(cfg) && Ordered(ts) && a <= b < |ts|
    requires b - a + 1 >= 2 * cfg.maxFailures - 1 && ts[b] - ts[a] < cfg.window
    ensures exists k :: a <= k <= b && (Dropped(cfg, ts, k) || Bans(cfg, ts, k))
  {
    if Unpunished(cfg, ts, a, b) {
      if p :| a < p <= b && Opens(cfg, ts, p) {
        forall i | p < i <= b ensures !Opens(cfg, ts, i) {
          WindowLasts(cfg, ts, p, i);
        }
        forall i | a < i < p ensures !Opens(cfg, ts, i) {
          if Opens(cfg, ts, i) {
            WindowLasts(cfg, ts, i, p);
          }
        }
        CountedTogether(cfg, ts, a, p - 1);
        CountedTogether(cfg, ts, p, b);
      } else {
        CountedTogether(cfg, ts, a, b);
      }
    }
  }

  // ---------------------------------------------------------------------
  // Repeat offenders
  // ---------------------------------------------------------------------

  /** How long the ban started by failure k lasts. */
  function LengthOf(cfg: Config, ts: seq<int>, k: nat): int
    requires k < |ts|
  {
    After(cfg, ts, k + 1).bannedUntil - ts[k]
  }

  lemma LengthDoubles(banTime: int, n: nat)
    requires banTime > 0
    ensures BanLength(banTime, n + 1) == Min(2 * BanLength(banTime, n), MAX_BAN)
    ensures BanLength(banTime, n) <= BanLength(banTime, n + 1)
  {
    Pow2Grows(0, n);
    assert banTime * Pow2(n + 1) == 2 * (banTime * Pow2(n));
    assert banTime * Pow2(n) > 0;
  }

  /** Between two bans of a source the record remembers the first, until 24 h of quiet. */
  lemma {:induction false} BetweenBans(cfg: Config, ts: seq<int>, i: nat, k: nat)
    requires Valid(cfg) && Ordered(ts) && i < k < |ts| && Bans(cfg, ts, i)
    requires forall m :: i < m < k ==> !Bans(cfg, ts, m)
    requires ts[k] - After(cfg, ts, i + 1).bannedUntil < MAX_BAN
    ensures After(cfg, ts, k).bannedUntil == After(cfg, ts, i + 1).bannedUntil
    ensures After(cfg, ts, k).bans == After(cfg, ts, i + 1).bans
  {
    BanLengthAt(cfg, ts, i);
    if k > i + 1 {
      BetweenBans(cfg, ts, i, k - 1);
      assert !Bans(cfg, ts, k - 1) && After(cfg, ts, k) == FailRecord(cfg, After(cfg, ts, k - 1), ts[k - 1]);
    }
  }

  lemma BanLengthAt(cfg: Config, ts: seq<int>, k: nat)
    requires Valid(cfg) && k < |ts| && Bans(cfg, ts, k)
    ensures var r := After(cfg, ts, k);
            var bans := if r.bans > 0 && Sub(ts[k], r.bannedUntil) >= MAX_BAN then 0 else r.bans;
            LengthOf(cfg, ts, k) == BanLength(cfg.banTime, bans) && After(cfg, ts, k + 1).bans == bans + 1
  {
  }

  /** The next ban of a source lasts twice as long, up to 24 h, and so never less,
      unless 24 h have passed since the last one ended. */
  lemma NextBanDoubles(cfg: Config, ts: seq<int>, i: nat, k: nat)
    requires Valid(cfg) && Ordered(ts) && i < k < |ts| && Bans(cfg, ts, i) && Bans(cfg, ts, k)
    requires forall m :: i < m < k ==> !Bans(cfg, ts, m)
    requires ts[k] - After(cfg, ts, i + 1).bannedUntil < MAX_BAN
    ensures LengthOf(cfg, ts, k) == Min(2 * LengthOf(cfg, ts, i), MAX_BAN)
    ensures LengthOf(cfg, ts, i) <= LengthOf(cfg, ts, k) <= MAX_BAN
  {
    BetweenBans(cfg, ts, i, k);
    BanLengthAt(cfg, ts, i);
    BanLengthAt(cfg, ts, k);
    LengthDoubles(cfg.banTime, After(cfg, ts, i + 1).bans - 1);
  }

  /** The first ban of a source, and one that comes 24 h or more after the end of the last, lasts banTime, at
      most 24 h. */
  lemma BanAfterQuiet(cfg: Config, ts: seq<int>, k: nat)
    requires Valid(cfg) && Ordered(ts) && k < |ts| && Bans(cfg, ts, k)
    requires LastBan(cfg, ts, k) < 0 || ts[k] - After(cfg, ts, k).bannedUntil >= 24 * 60 * 60 * 1_000_000_000
    ensures LengthOf(cfg, ts, k) == Min(cfg.banTime, 24 * 60 * 60 * 1_000_000_000)
  {
    BanLengthAt(cfg, ts, k);
    if LastBan(cfg, ts, k) < 0 {
      NoBanYet(cfg, ts, k);
    }
    assert Pow2(0) == 1;
  }

  lemma {:induction false} NoBanYet(cfg: Config, ts: seq<int>, k: nat)
    requires k <= |ts| && LastBan(cfg, ts, k) < 0
    ensures After(cfg, ts, k).bans == 0
  {
    if k > 0 {
      NoBanYet(cfg, ts, k - 1);
      assert !Bans(cfg, ts, k - 1);
    }
  }

  // ---------------------------------------------------------------------
  // From one source's history to whole runs of the ban list
  // ---------------------------------------------------------------------

  /** The times of the counted failures of ip in a run. */
  function Times(es: seq<Event>, ip: string): seq<int> {
    if es == [] then []
    else if es[0].FailAt? && es[0].ip == ip && ip != "" && !es[0].never then [es[0].now] + Times(es[1..], ip)
    else Times(es[1..], ip)
  }

  function AfterFrom(cfg: Config, r: Record, ts: seq<int>): (r': Record)
    requires r.bans >= 0
    ensures r'.bans >= 0
    decreases |ts|
  {
    if ts == [] then r else AfterFrom(cfg, FailRecord(cfg, r, ts[0]), ts[1..])
  }

  lemma AfterFromSplits(cfg: Config, r: Record, ts: seq<int>, k: nat)
    requires r.bans >= 0 && k < |ts|
    ensures AfterFrom(cfg, r, ts[..k + 1]) == FailRecord(cfg, AfterFrom(cfg, r, ts[..k]), ts[k])
    decreases k
  {
    if k == 0 {
      assert ts[..1] == [ts[0]] && ts[..1][1..] == [];
    } else {
      assert ts[..k + 1][1..] == ts[1..][..k] && ts[..k][1..] == ts[1..][..k - 1];
      AfterFromSplits(cfg, FailRecord(cfg, r, ts[0]), ts[1..], k - 1);
    }
  }

  lemma AfterIsFold(cfg: Config, ts: seq<int>, k: nat)
    requires k <= |ts|
    ensures After(cfg, ts, k) == AfterFrom(cfg, NEW_RECORD, ts[..k])
  {
    if k > 0 {
      AfterIsFold(cfg, ts, k - 1);
      AfterFromSplits(cfg, NEW_RECORD, ts, k - 1);
    }
  }

  lemma {:induction false} KeptRecordIsFold(cfg: Config, m: Sources, es: seq<Event>, ip: string)
    requires WellFormed(m)
    ensures Get(RunKept(cfg, m, es).0, ip) == AfterFrom(cfg, Get(m, ip), Times(es, ip))
    decreases |es|
  {
    if es != [] {
      StepsStayWellFormed(cfg, NO_BANS, m, es[0]);
      KeptRecordIsFold(cfg, StepKept(cfg, m, es[0]).0, es[1..], ip);
      if es[0].FailAt? && es[0].ip == ip && ip != "" && !es[0].never {
        assert Times(es, ip)[1..] == Times(es[1..], ip);
      }
    }
  }

  lemma {:induction false} TimesAreOrdered(t: int, es: seq<Event>, ip: string)
    requires ClockFrom(t, es)
    ensures Ordered(Times(es, ip))
    ensures forall i :: 0 <= i < |Times(es, ip)| ==> Times(es, ip)[i] >= t
    decreases |es|
  {
    if es != [] {
      assert ClockFrom(es[0].now, es[1..]);
      TimesAreOrdered(es[0].now, es[1..], ip);
    }
  }

  /** What Banned answers after any run, sweeps included, is what the source's own
      failures say: the theorems above are about the running ban list. */
  lemma BannedFollowsHistory(cfg: Config, t: int, es: seq<Event>, ip: string, now: int)
    requires Valid(cfg) && ClockFrom(t, es) && now >= t && (es != [] ==> now >= es[|es| - 1].now)
    ensures var ts := Times(es, ip);
            && Ordered(ts)
            && (IsBanned(RunSwept(cfg, NO_BANS, es).0.sources, ip, now) <==> InBan(After(cfg, ts, |ts|), now))
  {
    var ts := Times(es, ip);
    TimesAreOrdered(t, es, ip);
    RunsAgree(cfg, NO_BANS, map[], t, es);
    KeptRecordIsFold(cfg, map[], es, ip);
    AfterIsFold(cfg, ts, |ts|);
    assert ts[..|ts|] == ts;
  }
}
