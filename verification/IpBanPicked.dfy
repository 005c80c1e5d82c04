/** Ban completeness for failures picked from among others of the same source: when are
    2 * maxFailures - 1 of them inside less than one window sure to meet a ban? */
module IpBanPicked {
  import opened Text
  import opened IpBan
  import opened IpBanHistory

  /** At least 2 * maxFailures - 1 of the failures, in order, inside less than one window. */
  predicate Picked(cfg: Config, ts: seq<int>, picks: seq<nat>) {
    && |picks| >= 2 * cfg.maxFailures - 1 && |picks| > 0
    && (forall i :: 0 <= i < |picks| ==> picks[i] < |ts|)
    && (forall i, j :: 0 <= i < j < |picks| ==> picks[i] < picks[j])
    && ts[picks[|picks| - 1]] - ts[picks[0]] < cfg.window
  }

  /** Failure k neither falls in a ban nor starts one. */
  predicate Spared(cfg: Config, ts: seq<int>, k: nat)
    requires k < |ts|
  {
    !Dropped(cfg, ts, k) && !Bans(cfg, ts, k)
  }

  predicate AllSpared(cfg: Config, ts: seq<int>, picks: seq<nat>)
    requires forall i :: 0 <= i < |picks| ==> picks[i] < |ts|
  {
    forall i :: 0 <= i < |picks| ==> Spared(cfg, ts, picks[i])
  }

  /** The failures `picks` are picked as above, and no ban touches any of them. */
  predicate Escape(cfg: Config, ts: seq<int>, picks: seq<nat>) {
    Ordered(ts) && Picked(cfg, ts, picks) && AllSpared(cfg, ts, picks)
  }

  /** The length of a first ban. */
  function First(cfg: Config): int { BanLength(cfg.banTime, 0) }

  /** The length of a ban that follows another within 24 h. */
  function Second(cfg: Config): int { BanLength(cfg.banTime, 1) }

  /** The settings under which some picked failures go unpunished: bans are too short for
      the window. The last disjunct is about a second ban after 24 h of quiet; it adds only
      a window of 24 h and 1 ns with a banTime of 12 h. */
  predicate CanEscape(cfg: Config) {
    || (cfg.maxFailures >= 3 && First(cfg) <= cfg.window - 2)
    || (cfg.maxFailures == 2 && (Second(cfg) <= cfg.window - 2 || MAX_BAN + 2 * First(cfg) <= 2 * cfg.window - 2))
  }

  lemma Lengths(cfg: Config)
    requires Valid(cfg)
    ensures First(cfg) == Min(cfg.banTime, MAX_BAN) && Second(cfg) == Min(2 * cfg.banTime, MAX_BAN)
    ensures 1 <= First(cfg) <= Second(cfg) == Min(2 * First(cfg), MAX_BAN)
    ensures forall n: nat :: First(cfg) <= BanLength(cfg.banTime, n)
    ensures forall n: nat :: n >= 1 ==> Second(cfg) <= BanLength(cfg.banTime, n)
  {
    LengthDoubles(cfg.banTime, 0);
    assert Pow2(0) == 1 && Pow2(1) == 2;
    forall n: nat ensures First(cfg) <= BanLength(cfg.banTime, n) {
      LongerBan(cfg, 0, n);
    }
    forall n: nat | n >= 1 ensures Second(cfg) <= BanLength(cfg.banTime, n) {
      LongerBan(cfg, 1, n);
    }
  }

  lemma LongerBan(cfg: Config, m: nat, n: nat)
    requires Valid(cfg) && m <= n
    ensures BanLength(cfg.banTime, m) <= BanLength(cfg.banTime, n)
  {
    Pow2Grows(m, n);
    ProductGrows(cfg.banTime, Pow2(m), Pow2(n));
  }

  // ---------------------------------------------------------------------
  // Between two failures
  // ---------------------------------------------------------------------

  predicate NoBans(cfg: Config, ts: seq<int>, a: nat, b: nat)
    requires b <= |ts|
  {
    forall k :: a <= k < b ==> !Bans(cfg, ts, k)
  }

  /** Without a ban the end of the last one stays where it is. */
  lemma {:induction false} BanEndStays(cfg: Config, ts: seq<int>, a: nat, k: nat)
    requires a <= k <= |ts| && NoBans(cfg, ts, a, k)
    ensures After(cfg, ts, k).bannedUntil == After(cfg, ts, a).bannedUntil
  {
    if k > a {
      BanEndStays(cfg, ts, a, k - 1);
      assert !Bans(cfg, ts, k - 1);
    }
  }

  /** After an undropped failure and without a new ban, none is dropped. */
  lemma NoneDropped(cfg: Config, ts: seq<int>, a: nat, k: nat)
    requires Ordered(ts) && a <= k < |ts| && !Dropped(cfg, ts, a) && NoBans(cfg, ts, a, k)
    ensures !Dropped(cfg, ts, k)
  {
    BanEndStays(cfg, ts, a, k);
  }

  /** During a ban every failure is dropped. */
  lemma {:induction false} BanLasts(cfg: Config, ts: seq<int>, k: nat, q: nat)
    requires Ordered(ts) && k < q < |ts| && ts[q] < After(cfg, ts, k + 1).bannedUntil
    ensures After(cfg, ts, q) == After(cfg, ts, k + 1) && Dropped(cfg, ts, q)
  {
    if q > k + 1 {
      BanLasts(cfg, ts, k, q - 1);
    }
  }

  lemma BanIsLongEnough(cfg: Config, ts: seq<int>, k: nat)
    requires Valid(cfg) && k < |ts| && Bans(cfg, ts, k)
    ensures LengthOf(cfg, ts, k) >= First(cfg)
  {
    BanLengthAt(cfg, ts, k);
    Lengths(cfg);
  }

  /** An undropped failure comes after the end of every ban before it. */
  lemma UndroppedAfterBan(cfg: Config, ts: seq<int>, k: nat, q: nat)
    requires Valid(cfg) && Ordered(ts) && k < q < |ts| && Bans(cfg, ts, k) && !Dropped(cfg, ts, q)
    ensures ts[q] >= ts[k] + LengthOf(cfg, ts, k) >= ts[k] + First(cfg)
  {
    BanIsLongEnough(cfg, ts, k);
    if ts[q] < After(cfg, ts, k + 1).bannedUntil {
      BanLasts(cfg, ts, k, q);
    }
  }

  predicate NoOpenings(cfg: Config, ts: seq<int>, a: nat, b: nat)
    requires b < |ts|
  {
    forall k :: a < k <= b ==> !Opens(cfg, ts, k)
  }

  /** Two undropped failures with no ban between them: all from one to the other are unpunished. */
  lemma QuietStretch(cfg: Config, ts: seq<int>, a: nat, b: nat)
    requires Ordered(ts) && a <= b < |ts| && !Dropped(cfg, ts, a) && NoBans(cfg, ts, a, b + 1)
    ensures Unpunished(cfg, ts, a, b)
  {
    forall k | a <= k <= b ensures !Dropped(cfg, ts, k) && !Bans(cfg, ts, k) {
      NoneDropped(cfg, ts, a, k);
    }
  }

  /** Where at least 2 * maxFailures - 1 failures lie in less than one window, the spared ends
      have a ban between them. */
  lemma SomeBanBetween(cfg: Config, ts: seq<int>, a: nat, b: nat) returns (k: nat)
    requires Valid(cfg) && Ordered(ts) && a <= b < |ts| && Spared(cfg, ts, a) && Spared(cfg, ts, b)
    requires b - a + 1 >= 2 * cfg.maxFailures - 1 && ts[b] - ts[a] < cfg.window
    ensures a < k < b && Bans(cfg, ts, k)
  {
    if NoBans(cfg, ts, a, b + 1) {
      QuietStretch(cfg, ts, a, b);
      EnoughFailuresBringABan(cfg, ts, a, b);
      assert false;
    }
    k :| a <= k < b + 1 && Bans(cfg, ts, k);
  }

  // ---------------------------------------------------------------------
  // Failures at one instant
  // ---------------------------------------------------------------------

  lemma CountedIsInWindow(cfg: Config, ts: seq<int>, a: nat)
    requires Valid(cfg) && a < |ts| && !Dropped(cfg, ts, a)
    ensures Sub(ts[a], After(cfg, ts, a + 1).windowStart) < cfg.window
  {
  }

  lemma {:induction false} NoOpeningAtOneInstant(cfg: Config, ts: seq<int>, a: nat, k: nat)
    requires Valid(cfg) && a < k < |ts| && ts[a] == ts[k] && Ordered(ts) && Unpunished(cfg, ts, a, k)
    ensures !Opens(cfg, ts, k) && After(cfg, ts, k).windowStart == After(cfg, ts, a + 1).windowStart
  {
    CountedIsInWindow(cfg, ts, a);
    if k > a + 1 {
      NoOpeningAtOneInstant(cfg, ts, a, k - 1);
      assert !Dropped(cfg, ts, k - 1) && !Bans(cfg, ts, k - 1);
    }
  }

  /** maxFailures failures at one instant, whatever lies between them, are not all spared. */
  lemma InstantBringsABan(cfg: Config, ts: seq<int>, a: nat, b: nat)
    requires Valid(cfg) && Ordered(ts) && a <= b < |ts| && ts[a] == ts[b]
    requires b - a + 1 >= cfg.maxFailures && Spared(cfg, ts, a)
    ensures !Spared(cfg, ts, b)
  {
    if Spared(cfg, ts, b) {
      if k :| a <= k < b + 1 && Bans(cfg, ts, k) {
        UndroppedAfterBan(cfg, ts, k, b);
        Lengths(cfg);
        assert false;
      }
      QuietStretch(cfg, ts, a, b);
      forall k | a < k <= b ensures !Opens(cfg, ts, k) {
        NoOpeningAtOneInstant(cfg, ts, a, k);
      }
      CountedTogether(cfg, ts, a, b);
      assert false;
    }
  }

  // ---------------------------------------------------------------------
  // Long bans
  // ---------------------------------------------------------------------

  lemma Spread(picks: seq<nat>, i: nat, j: nat)
    requires i <= j < |picks| && forall i, j :: 0 <= i < j < |picks| ==> picks[i] < picks[j]
    ensures picks[j] - picks[i] >= j - i
  {
    if i < j {
      Spread(picks, i, j - 1);
    }
  }

  /** The number of picks before failure k. */
  function Before(picks: seq<nat>, k: nat): (n: nat)
    requires forall i, j :: 0 <= i < j < |picks| ==> picks[i] < picks[j]
    ensures n <= |picks|
    ensures forall i :: 0 <= i < n ==> picks[i] < k
    ensures forall i :: n <= i < |picks| ==> picks[i] >= k
  {
    if picks == [] then 0
    else if picks[|picks| - 1] < k then |picks|
    else Before(picks[..|picks| - 1], k)
  }

  /** With bans of at least a window, less a nanosecond, picked failures always meet a ban. */
  lemma LongBansCatchAll(cfg: Config, ts: seq<int>, picks: seq<nat>)
    requires Valid(cfg) && Ordered(ts) && Picked(cfg, ts, picks)
    requires cfg.maxFailures == 1 || First(cfg) >= cfg.window - 1
    ensures !AllSpared(cfg, ts, picks)
  {
    if AllSpared(cfg, ts, picks) {
      var m, last := cfg.maxFailures, |picks| - 1;
      var p0, p := picks[0], picks[last];
      assert Spared(cfg, ts, p0) && Spared(cfg, ts, p);
      if m == 1 {
        InstantBringsABan(cfg, ts, p0, p0);
        assert false;
      }
      Spread(picks, 0, last);
      var k := SomeBanBetween(cfg, ts, p0, p);
      var n := Before(picks, k);
      UndroppedAfterBan(cfg, ts, k, p);
      assert ts[k] == ts[p0] && ts[p] == ts[p0] + cfg.window - 1;
      if n >= m {
        Spread(picks, 0, n - 1);
        assert Spared(cfg, ts, picks[n - 1]);
        InstantBringsABan(cfg, ts, p0, picks[n - 1]);
      } else {
        assert Spared(cfg, ts, picks[n]);
        assert picks[n] != k;
        UndroppedAfterBan(cfg, ts, k, picks[n]);
        Spread(picks, n, last);
        InstantBringsABan(cfg, ts, picks[n], p);
      }
      assert false;
    }
  }

  // ---------------------------------------------------------------------
  // maxFailures 2: what three spared failures need
  // ---------------------------------------------------------------------

  /** A count of 0 is what a ban leaves behind, in the window it started in. */
  lemma {:induction false} ZeroAfterBan(cfg: Config, ts: seq<int>, k: nat)
    requires Valid(cfg) && Ordered(ts) && 0 < k <= |ts|
    ensures var r := After(cfg, ts, k);
            && r.windowStart <= ts[k - 1]
            && (r.failures >= 1 || (r.failures == 0 && r.bans >= 1 && r.bannedUntil >= r.windowStart + First(cfg)))
  {
    if k > 1 {
      ZeroAfterBan(cfg, ts, k - 1);
    }
    FailuresStayBelowLimit(cfg, ts, k - 1);
    if Bans(cfg, ts, k - 1) {
      BanIsLongEnough(cfg, ts, k - 1);
    }
  }

  lemma BanOrOpening(cfg: Config, ts: seq<int>, p: nat, q: nat)
    requires Valid(cfg) && Ordered(ts) && cfg.maxFailures == 2
    requires p < q < |ts| && Spared(cfg, ts, p) && Spared(cfg, ts, q)
    ensures !NoBans(cfg, ts, p + 1, q) || !NoOpenings(cfg, ts, p, q)
  {
    if NoBans(cfg, ts, p + 1, q) && NoOpenings(cfg, ts, p, q) {
      QuietStretch(cfg, ts, p, q);
      CountedTogether(cfg, ts, p, q);
      assert false;
    }
  }

  lemma FirstBan(cfg: Config, ts: seq<int>, a: nat, b: nat) returns (k: nat)
    requires a <= b <= |ts| && !NoBans(cfg, ts, a, b)
    ensures a <= k < b && Bans(cfg, ts, k) && NoBans(cfg, ts, a, k)
    decreases b
  {
    k :| a <= k < b && Bans(cfg, ts, k);
    if !NoBans(cfg, ts, a, k) {
      k := FirstBan(cfg, ts, a, k);
    }
  }

  lemma LastBanIn(cfg: Config, ts: seq<int>, a: nat, b: nat) returns (k: nat)
    requires a <= b <= |ts| && !NoBans(cfg, ts, a, b)
    ensures a <= k < b && Bans(cfg, ts, k) && NoBans(cfg, ts, k + 1, b)
    decreases b - a
  {
    k :| a <= k < b && Bans(cfg, ts, k);
    if !NoBans(cfg, ts, k + 1, b) {
      k := LastBanIn(cfg, ts, k + 1, b);
    }
  }

  /** A ban is remembered until 24 h after its end. */
  lemma {:induction false} BanRemembered(cfg: Config, ts: seq<int>, a: nat, k: nat)
    requires Ordered(ts) && a <= k < |ts| && NoBans(cfg, ts, a, k) && After(cfg, ts, a).bans >= 1
    ensures After(cfg, ts, k).bannedUntil == After(cfg, ts, a).bannedUntil
    ensures After(cfg, ts, k).bans >= 1 || ts[k] - After(cfg, ts, a).bannedUntil >= MAX_BAN
  {
    if k > a {
      BanRemembered(cfg, ts, a, k - 1);
      assert !Bans(cfg, ts, k - 1);
    }
  }

  /** So the next ban is a second one, or comes after 24 h of quiet. */
  lemma NextBan(cfg: Config, ts: seq<int>, a: nat, k: nat)
    requires Valid(cfg) && Ordered(ts) && a <= k < |ts| && NoBans(cfg, ts, a, k) && Bans(cfg, ts, k)
    requires After(cfg, ts, a).bans >= 1
    ensures LengthOf(cfg, ts, k) >= First(cfg)
    ensures LengthOf(cfg, ts, k) >= Second(cfg) || ts[k] - After(cfg, ts, a).bannedUntil >= MAX_BAN
  {
    BanRemembered(cfg, ts, a, k);
    BanLengthAt(cfg, ts, k);
    Lengths(cfg);
  }

  /** Two gaps with a ban in each. */
  lemma BansInBothGaps(cfg: Config, ts: seq<int>, p0: nat, p1: nat, p2: nat)
    requires Valid(cfg) && Ordered(ts) && p0 < p1 < p2 < |ts| && ts[p2] - ts[p0] < cfg.window
    requires Spared(cfg, ts, p0) && Spared(cfg, ts, p1) && Spared(cfg, ts, p2)
    requires !NoBans(cfg, ts, p0 + 1, p1) && !NoBans(cfg, ts, p1 + 1, p2)
    ensures Second(cfg) <= cfg.window - 2 || MAX_BAN + 2 * First(cfg) <= 2 * cfg.window - 2
  {
    var b := LastBanIn(cfg, ts, p0 + 1, p1);
    var k := FirstBan(cfg, ts, p1 + 1, p2);
    assert NoBans(cfg, ts, b + 1, k);
    UndroppedAfterBan(cfg, ts, b, p1);
    TwoBansFit(cfg, ts, b, k, p2);
    Lengths(cfg);
  }

  /** A ban, the next, and a failure after it. */
  lemma TwoBansFit(cfg: Config, ts: seq<int>, b: nat, k: nat, p: nat)
    requires Valid(cfg) && Ordered(ts) && b < k < p < |ts|
    requires Bans(cfg, ts, b) && Bans(cfg, ts, k) && !Dropped(cfg, ts, p)
    requires NoBans(cfg, ts, b + 1, k)
    ensures ts[p] - ts[k] >= Second(cfg) || ts[p] - ts[b] >= MAX_BAN + 2 * First(cfg)
  {
    BansInARow(cfg, ts, b, k);
    UndroppedAfterBan(cfg, ts, k, p);
  }

  lemma BansInARow(cfg: Config, ts: seq<int>, b: nat, k: nat)
    requires Valid(cfg) && Ordered(ts) && b < k < |ts|
    requires Bans(cfg, ts, b) && Bans(cfg, ts, k) && NoBans(cfg, ts, b + 1, k)
    ensures LengthOf(cfg, ts, k) >= Second(cfg)
            || (ts[k] - ts[b] >= First(cfg) + MAX_BAN && LengthOf(cfg, ts, k) >= First(cfg))
  {
    BanLengthAt(cfg, ts, b);
    BanIsLongEnough(cfg, ts, b);
    NextBan(cfg, ts, b + 1, k);
  }

  lemma {:induction false} WindowStays(cfg: Config, ts: seq<int>, p: nat, k: nat)
    requires p < k < |ts| && NoOpenings(cfg, ts, p, k - 1)
    ensures After(cfg, ts, k).windowStart == After(cfg, ts, p + 1).windowStart
  {
    if k > p + 1 {
      WindowStays(cfg, ts, p, k - 1);
      assert !Opens(cfg, ts, k - 1);
    }
  }

  /** A failure spared in a window that ends within less than a window after it: the window began
      earlier, and a ban in it has ended. */
  lemma OldWindow(cfg: Config, ts: seq<int>, p: nat, o: nat)
    requires Valid(cfg) && Ordered(ts) && cfg.maxFailures == 2 && p < o < |ts| && ts[o] - ts[p] < cfg.window
    requires Spared(cfg, ts, p) && Opens(cfg, ts, o) && NoOpenings(cfg, ts, p, o - 1)
    ensures var r, ws := After(cfg, ts, p), After(cfg, ts, p + 1).windowStart;
            && r.bans >= 1 && ws + First(cfg) <= r.bannedUntil <= ts[p]
            && ws < ts[p] < ws + cfg.window <= ts[o]
  {
    WindowStays(cfg, ts, p, o);
    FailuresStayBelowLimit(cfg, ts, p + 1);
    FailuresStayBelowLimit(cfg, ts, p);
    assert !Opens(cfg, ts, p);
    assert p > 0;
    ZeroAfterBan(cfg, ts, p);
  }

  /** One gap has a ban, the other only a new window. */
  lemma BanInFirstGap(cfg: Config, ts: seq<int>, p0: nat, p1: nat, p2: nat, o: nat)
    requires Valid(cfg) && Ordered(ts) && cfg.maxFailures == 2
    requires p0 < p1 < o <= p2 < |ts| && ts[p2] - ts[p0] < cfg.window
    requires Spared(cfg, ts, p0) && Spared(cfg, ts, p1) && Spared(cfg, ts, p2)
    requires !NoBans(cfg, ts, p0 + 1, p1) && Opens(cfg, ts, o) && NoOpenings(cfg, ts, p0, o - 1)
    ensures Second(cfg) <= cfg.window - 2 || MAX_BAN + 2 * First(cfg) <= 2 * cfg.window - 2
  {
    OldWindow(cfg, ts, p0, o);
    var k := FirstBan(cfg, ts, p0 + 1, p1);
    assert NoBans(cfg, ts, p0, k);
    NextBan(cfg, ts, p0, k);
    UndroppedAfterBan(cfg, ts, k, p1);
    WindowStays(cfg, ts, p0, p1);
    assert !Opens(cfg, ts, p1);
    Lengths(cfg);
  }

  lemma BanInSecondGap(cfg: Config, ts: seq<int>, p0: nat, p1: nat, p2: nat, o: nat)
    requires Valid(cfg) && Ordered(ts) && cfg.maxFailures == 2
    requires p0 < o <= p1 < p2 < |ts| && ts[p2] - ts[p0] < cfg.window
    requires Spared(cfg, ts, p0) && Spared(cfg, ts, p1) && Spared(cfg, ts, p2)
    requires NoBans(cfg, ts, p0 + 1, p1) && !NoBans(cfg, ts, p1 + 1, p2)
    requires Opens(cfg, ts, o) && NoOpenings(cfg, ts, p0, o - 1)
    ensures Second(cfg) <= cfg.window - 2 || MAX_BAN + 2 * First(cfg) <= 2 * cfg.window - 2
  {
    OldWindow(cfg, ts, p0, o);
    var k := FirstBan(cfg, ts, p1 + 1, p2);
    assert NoBans(cfg, ts, p0, k);
    NextBan(cfg, ts, p0, k);
    UndroppedAfterBan(cfg, ts, k, p2);
    assert ts[k] >= ts[p1] >= ts[o] > ts[p0];
  }

  /** An opening, the only one before the next window's length is over. */
  lemma OneOpening(cfg: Config, ts: seq<int>, a: nat, b: nat, p: nat, q: nat) returns (o: nat)
    requires Valid(cfg) && Ordered(ts) && p <= a <= b <= q < |ts| && ts[q] - ts[p] < cfg.window
    requires !NoOpenings(cfg, ts, a, b)
    ensures a < o <= b && Opens(cfg, ts, o)
    ensures NoOpenings(cfg, ts, p, o - 1) && NoOpenings(cfg, ts, o, q)
  {
    o :| a < o <= b && Opens(cfg, ts, o);
    forall i | p < i < o ensures !Opens(cfg, ts, i) {
      if Opens(cfg, ts, i) {
        WindowLasts(cfg, ts, i, o);
      }
    }
    forall i | o < i <= q ensures !Opens(cfg, ts, i) {
      WindowLasts(cfg, ts, o, i);
    }
  }

  lemma ThreeSparedNeedShortBans(cfg: Config, ts: seq<int>, p0: nat, p1: nat, p2: nat)
    requires Valid(cfg) && Ordered(ts) && cfg.maxFailures == 2
    requires p0 < p1 < p2 < |ts| && ts[p2] - ts[p0] < cfg.window
    requires Spared(cfg, ts, p0) && Spared(cfg, ts, p1) && Spared(cfg, ts, p2)
    ensures CanEscape(cfg)
  {
    BanOrOpening(cfg, ts, p0, p1);
    BanOrOpening(cfg, ts, p1, p2);
    if NoBans(cfg, ts, p0 + 1, p1) {
      var o := OneOpening(cfg, ts, p0, p1, p0, p2);
      assert NoOpenings(cfg, ts, p1, p2);
      BanInSecondGap(cfg, ts, p0, p1, p2, o);
    } else if NoBans(cfg, ts, p1 + 1, p2) {
      var o := OneOpening(cfg, ts, p1, p2, p0, p2);
      BanInFirstGap(cfg, ts, p0, p1, p2, o);
    } else {
      BansInBothGaps(cfg, ts, p0, p1, p2);
    }
  }

  // ---------------------------------------------------------------------
  // Failures that escape
  // ---------------------------------------------------------------------

  /** n failures at one instant inside a window that is open and has room for them. */
  lemma {:induction false} Burst(cfg: Config, ts: seq<int>, a: nat, n: nat, t: int)
    requires a + n <= |ts| && forall i :: a <= i < a + n ==> ts[i] == t
    requires var r := After(cfg, ts, a);
             !InBan(r, t) && Sub(t, r.windowStart) < cfg.window && r.failures + n < cfg.maxFailures
    ensures var r, r' := After(cfg, ts, a), After(cfg, ts, a + n);
            && r' == r.(failures := r.failures + n, bans := r'.bans) && (r.bans == 0 ==> r'.bans == 0)
    ensures forall i :: a <= i < a + n ==> Spared(cfg, ts, i)
  {
    if n > 0 {
      Burst(cfg, ts, a, n - 1, t);
      assert ts[a + n - 1] == t;
    }
  }

  /** One failure that opens a window. */
  lemma Opening(cfg: Config, ts: seq<int>, a: nat)
    requires a < |ts| && cfg.maxFailures >= 2
    requires var r := After(cfg, ts, a); !InBan(r, ts[a]) && Sub(ts[a], r.windowStart) >= cfg.window
    ensures var r, r' := After(cfg, ts, a), After(cfg, ts, a + 1);
            && r' == r.(failures := 1, windowStart := ts[a], bans := r'.bans) && (r.bans == 0 ==> r'.bans == 0)
    ensures Spared(cfg, ts, a)
  {
  }

  lemma Strike(cfg: Config, ts: seq<int>, a: nat)
    requires a < |ts| && cfg.maxFailures >= 2
    requires var r := After(cfg, ts, a);
             !InBan(r, ts[a]) && Sub(ts[a], r.windowStart) < cfg.window && r.failures == cfg.maxFailures - 1
    ensures var r, r' := After(cfg, ts, a), After(cfg, ts, a + 1);
            var bans := if r.bans > 0 && Sub(ts[a], r.bannedUntil) >= MAX_BAN then 0 else r.bans;
            r' == Record(0, r.windowStart, bans + 1, ts[a] + BanLength(cfg.banTime, bans))
  {
  }

  /** A ban after at most one other: it lasts as a first or a second one. */
  lemma StrikeLasts(cfg: Config, ts: seq<int>, a: nat, t: int)
    requires Valid(cfg) && a < |ts| && ts[a] == t && cfg.maxFailures == 2
    requires var r := After(cfg, ts, a);
             !InBan(r, t) && t - r.windowStart < cfg.window && r.failures == 1 && r.bans <= 1
    ensures var r, r' := After(cfg, ts, a), After(cfg, ts, a + 1);
            && r'.failures == 0 && r'.windowStart == r.windowStart && r'.bannedUntil <= t + Second(cfg)
            && (t - r.bannedUntil >= MAX_BAN ==> r'.bannedUntil == t + First(cfg))
  {
    Lengths(cfg);
    Strike(cfg, ts, a);
  }

  /** maxFailures 3 or more: one failure, then at s the rest of a ban, and as many as go
      unpunished just before the window ends and just after. */
  function ManyAt(cfg: Config, s: int, i: nat): int {
    var m := cfg.maxFailures;
    if i == 0 then s - 1
    else if i < m then s
    else if i < 2 * m - 1 then s + cfg.window - 2
    else s + cfg.window - 1
  }

  function Many(cfg: Config, s: int): seq<int>
    requires cfg.maxFailures >= 3
  {
    seq(3 * cfg.maxFailures - 2, i requires 0 <= i => ManyAt(cfg, s, i))
  }

  function ManyPicks(cfg: Config): seq<nat>
    requires cfg.maxFailures >= 3
  {
    seq(3 * cfg.maxFailures - 4, i requires 0 <= i => if i < cfg.maxFailures - 2 then i + 1 else i + 2)
  }

  lemma ManyAreOrdered(cfg: Config, s: int)
    requires Valid(cfg) && cfg.maxFailures >= 3 && cfg.window >= 3 && s > MAX_INT64
    ensures Ordered(Many(cfg, s)) && Picked(cfg, Many(cfg, s), ManyPicks(cfg))
  {
  }

  lemma ManyToTheBan(cfg: Config, s: int)
    requires Valid(cfg) && cfg.maxFailures >= 3 && cfg.window >= 3 && s > MAX_INT64
    ensures var ts, m := Many(cfg, s), cfg.maxFailures;
            && After(cfg, ts, m) == Record(0, s - 1, 1, s + First(cfg))
            && forall i :: 1 <= i < m - 1 ==> Spared(cfg, ts, i)
  {
    var m, ts := cfg.maxFailures, Many(cfg, s);
    Opening(cfg, ts, 0);
    Burst(cfg, ts, 1, m - 2, s);
    Strike(cfg, ts, m - 1);
  }

  lemma ManyToTheEdge(cfg: Config, s: int)
    requires Valid(cfg) && cfg.maxFailures >= 3 && First(cfg) <= cfg.window - 2 && cfg.window >= 3 && s > MAX_INT64
    ensures var ts, m := Many(cfg, s), cfg.maxFailures;
            var r := After(cfg, ts, 2 * m - 1);
            && r.failures == m - 1 && r.windowStart == s - 1 && r.bannedUntil == s + First(cfg)
            && forall i :: m <= i < 2 * m - 1 ==> Spared(cfg, ts, i)
  {
    var m, ts := cfg.maxFailures, Many(cfg, s);
    ManyToTheBan(cfg, s);
    Burst(cfg, ts, m, m - 1, s + cfg.window - 2);
    assert m + (m - 1) == 2 * m - 1;
  }

  lemma ManyInTheNext(cfg: Config, s: int)
    requires Valid(cfg) && cfg.maxFailures >= 3 && First(cfg) <= cfg.window - 2 && cfg.window >= 3 && s > MAX_INT64
    ensures var ts, m := Many(cfg, s), cfg.maxFailures;
            forall i :: 2 * m - 1 <= i < 3 * m - 2 ==> Spared(cfg, ts, i)
  {
    var m, ts := cfg.maxFailures, Many(cfg, s);
    ManyToTheEdge(cfg, s);
    Opening(cfg, ts, 2 * m - 1);
    Burst(cfg, ts, 2 * m, m - 2, s + cfg.window - 1);
  }

  lemma ManyEscape(cfg: Config, s: int)
    requires Valid(cfg) && cfg.maxFailures >= 3 && First(cfg) <= cfg.window - 2 && s > MAX_INT64
    ensures Escape(cfg, Many(cfg, s), ManyPicks(cfg))
  {
    Lengths(cfg);
    ManyAreOrdered(cfg, s);
    ManyToTheBan(cfg, s);
    ManyToTheEdge(cfg, s);
    ManyInTheNext(cfg, s);
  }

  /** maxFailures 2: a first ban, a failure at the end of its window, one that opens the next,
      a ban at t, and a failure when that ban is over, at u. */
  function Pair(cfg: Config, s: int, t: int, u: int): seq<int> {
    [s, s, s + cfg.window - 1, s + cfg.window, t, u]
  }

  const PAIR_PICKS: seq<nat> := [2, 3, 5]

  lemma PairStarts(cfg: Config, s: int, t: int, u: int)
    requires Valid(cfg) && cfg.maxFailures == 2 && First(cfg) <= cfg.window - 1 && s >= MAX_INT64
    ensures var ts := Pair(cfg, s, t, u);
            var r := After(cfg, ts, 4);
            && r.failures == 1 && r.windowStart == s + cfg.window && r.bannedUntil == s + First(cfg) && r.bans <= 1
            && Spared(cfg, ts, 2) && Spared(cfg, ts, 3)
  {
    var ts := Pair(cfg, s, t, u);
    Lengths(cfg);
    Opening(cfg, ts, 0);
    Strike(cfg, ts, 1);
    assert After(cfg, ts, 2) == Record(0, s, 1, s + First(cfg));
    Burst(cfg, ts, 2, 1, s + cfg.window - 1);
    PairOpens(cfg, s, t, u);
  }

  lemma PairOpens(cfg: Config, s: int, t: int, u: int)
    requires Valid(cfg) && cfg.maxFailures == 2 && First(cfg) <= cfg.window - 1
    requires var r := After(cfg, Pair(cfg, s, t, u), 3); r == Record(1, s, r.bans, s + First(cfg)) && r.bans <= 1
    ensures var r := After(cfg, Pair(cfg, s, t, u), 4);
            r == Record(1, s + cfg.window, r.bans, s + First(cfg)) && r.bans <= 1 && Spared(cfg, Pair(cfg, s, t, u), 3)
  {
    Opening(cfg, Pair(cfg, s, t, u), 3);
  }

  predicate PairTimes(cfg: Config, s: int, t: int, u: int) {
    && s >= MAX_INT64 && First(cfg) <= cfg.window - 1
    && s + cfg.window <= t <= u < s + 2 * cfg.window - 1
    && (u - t >= Second(cfg) || (u - t >= First(cfg) && t - s >= First(cfg) + MAX_BAN))
  }

  lemma PairIsPicked(cfg: Config, s: int, t: int, u: int)
    requires Valid(cfg) && cfg.maxFailures == 2 && PairTimes(cfg, s, t, u)
    ensures Ordered(Pair(cfg, s, t, u)) && Picked(cfg, Pair(cfg, s, t, u), PAIR_PICKS)
  {
  }

  lemma PairStrikes(cfg: Config, s: int, t: int, u: int)
    requires Valid(cfg) && cfg.maxFailures == 2 && PairTimes(cfg, s, t, u)
    ensures var r := After(cfg, Pair(cfg, s, t, u), 5);
            r.failures == 0 && r.windowStart == s + cfg.window && r.bannedUntil <= u
  {
    var ts := Pair(cfg, s, t, u);
    PairStarts(cfg, s, t, u);
    var r := After(cfg, ts, 4);
    assert ts[4] == t && r.bannedUntil == s + First(cfg) <= t && r.windowStart == s + cfg.window;
    StrikeLasts(cfg, ts, 4, t);
    assert After(cfg, ts, 5).bannedUntil <= t + Second(cfg);
  }

  lemma PairEnds(cfg: Config, s: int, t: int, u: int)
    requires Valid(cfg) && cfg.maxFailures == 2 && PairTimes(cfg, s, t, u)
    ensures Escape(cfg, Pair(cfg, s, t, u), PAIR_PICKS)
  {
    PairIsPicked(cfg, s, t, u);
    PairStarts(cfg, s, t, u);
    PairStrikes(cfg, s, t, u);
    Burst(cfg, Pair(cfg, s, t, u), 5, 1, u);
  }

  /** When the second ban ends in time, and when it comes after a day. */
  lemma PairEscapes(cfg: Config, s: int) returns (ts: seq<int>)
    requires Valid(cfg) && cfg.maxFailures == 2 && CanEscape(cfg) && s >= MAX_INT64
    ensures Escape(cfg, ts, PAIR_PICKS)
  {
    var w, b := cfg.window, First(cfg);
    Lengths(cfg);
    var t := if Second(cfg) <= w - 2 then s + w else s + b + MAX_BAN;
    var u := if Second(cfg) <= w - 2 then t + Second(cfg) else t + b;
    PairEnds(cfg, s, t, u);
    ts := Pair(cfg, s, t, u);
  }

  // ---------------------------------------------------------------------
  // The theorem
  // ---------------------------------------------------------------------

  /** Any 2 * maxFailures - 1 failures of one source inside less than one window meet a ban, wherever
      they stand among others, exactly when bans are long enough for the window. */
  lemma PickedFailuresMeetABanIff(cfg: Config)
    requires Valid(cfg)
    ensures (forall ts, picks :: !Escape(cfg, ts, picks)) <==> !CanEscape(cfg)
  {
    if CanEscape(cfg) {
      if cfg.maxFailures >= 3 {
        ManyEscape(cfg, MAX_INT64 + 1);
        assert Escape(cfg, Many(cfg, MAX_INT64 + 1), ManyPicks(cfg));
      } else {
        var ts := PairEscapes(cfg, MAX_INT64);
        assert Escape(cfg, ts, PAIR_PICKS);
      }
    } else {
      forall ts, picks ensures !Escape(cfg, ts, picks) {
        if Escape(cfg, ts, picks) {
          NoEscape(cfg, ts, picks);
        }
      }
    }
  }

  lemma NoEscape(cfg: Config, ts: seq<int>, picks: seq<nat>)
    requires Valid(cfg) && Escape(cfg, ts, picks)
    ensures CanEscape(cfg)
  {
    if cfg.maxFailures == 2 {
      assert Spared(cfg, ts, picks[0]) && Spared(cfg, ts, picks[1]) && Spared(cfg, ts, picks[2]);
      assert ts[picks[2]] <= ts[picks[|picks| - 1]];
      ThreeSparedNeedShortBans(cfg, ts, picks[0], picks[1], picks[2]);
    } else if cfg.maxFailures == 1 || First(cfg) >= cfg.window - 1 {
      LongBansCatchAll(cfg, ts, picks);
    }
  }

  /** What CanEscape's last disjunct adds. */
  lemma ADayAddsOneCase(cfg: Config)
    requires Valid(cfg) && cfg.maxFailures == 2 && Second(cfg) > cfg.window - 2
    ensures CanEscape(cfg) <==> cfg.window == MAX_BAN + 1 && 2 * cfg.banTime == MAX_BAN
  {
    Lengths(cfg);
  }

  /** Three failures picked from five, inside 4 ns of a window of 100: two bans pass between them. */
  lemma ShortBansLetPickedFailuresPass()
    ensures var cfg, t := Config(2, 100, 1), MAX_INT64;
            Valid(cfg) && Escape(cfg, [t, t, t + 1, t + 1, t + 3], [0, 2, 4])
  {
    var cfg, t := Config(2, 100, 1), MAX_INT64;
    var ts := [t, t, t + 1, t + 1, t + 3];
    Lengths(cfg);
    Opening(cfg, ts, 0);
    Strike(cfg, ts, 1);
    Burst(cfg, ts, 2, 1, t + 1);
    Strike(cfg, ts, 3);
    Burst(cfg, ts, 4, 1, t + 3);
  }
}
