/** Ban completeness for failures in a row of one source: 2 * maxFailures - 1 of them inside less
    than one window always meet a ban; when does one fewer do? */
module IpBanInARow {
  import opened Text
  import opened IpBan
  import opened IpBanHistory
  import opened IpBanPicked

  /** At least 2 * maxFailures - 2 failures in a row inside less than one window, none of them
      dropped or starting a ban. */
  predicate RowEscapes(cfg: Config, ts: seq<int>, a: nat, b: nat) {
    && Ordered(ts) && a <= b < |ts| && b - a + 1 >= 2 * cfg.maxFailures - 2
    && ts[b] - ts[a] < cfg.window && Unpunished(cfg, ts, a, b)
  }

  /** Failures a..k open no window: each is counted on top of what was counted before. */
  lemma {:induction false} CountedOnTop(cfg: Config, ts: seq<int>, a: nat, k: nat)
    requires a <= k < |ts| && Unpunished(cfg, ts, a, k) && forall i :: a <= i <= k ==> !Opens(cfg, ts, i)
    ensures After(cfg, ts, k + 1).failures == After(cfg, ts, a).failures + (k - a + 1)
  {
    assert !Dropped(cfg, ts, k) && !Bans(cfg, ts, k) && !Opens(cfg, ts, k);
    assert After(cfg, ts, k + 1) == Counted(cfg, After(cfg, ts, k), ts[k]);
    if k > a {
      CountedOnTop(cfg, ts, a, k - 1);
    }
  }

  /** With bans of at least a window, an unpunished failure that opens no window is not the first counted in it. */
  lemma NotTheFirst(cfg: Config, ts: seq<int>, a: nat)
    requires Valid(cfg) && Ordered(ts) && First(cfg) >= cfg.window && a < |ts|
    requires !Dropped(cfg, ts, a) && !Opens(cfg, ts, a)
    ensures After(cfg, ts, a).failures >= 1
  {
    assert a > 0;
    ZeroAfterBan(cfg, ts, a);
  }

  lemma LongBansCatchTheRow(cfg: Config, ts: seq<int>, a: nat, b: nat)
    requires Valid(cfg) && cfg.maxFailures >= 2 && First(cfg) >= cfg.window
    ensures !RowEscapes(cfg, ts, a, b)
  {
    if RowEscapes(cfg, ts, a, b) {
      RowIsTooLong(cfg, ts, a, b);
      assert false;
    }
  }

  /** An unpunished stretch holds at most maxFailures - 2 failures before a window opens in it, and
      maxFailures - 1 from there on. */
  lemma RowIsTooLong(cfg: Config, ts: seq<int>, a: nat, b: nat)
    requires Valid(cfg) && cfg.maxFailures >= 2 && First(cfg) >= cfg.window
    requires Ordered(ts) && a <= b < |ts| && ts[b] - ts[a] < cfg.window && Unpunished(cfg, ts, a, b)
    ensures b - a + 1 <= 2 * cfg.maxFailures - 3
  {
    if p :| a <= p <= b && Opens(cfg, ts, p) {
      forall i | p < i <= b ensures !Opens(cfg, ts, i) {
        WindowLasts(cfg, ts, p, i);
      }
      CountedTogether(cfg, ts, p, b);
      if p > a {
        BeforeTheOpening(cfg, ts, a, p);
      }
    } else {
      NotTheFirst(cfg, ts, a);
      CountedOnTop(cfg, ts, a, b);
      FailuresStayBelowLimit(cfg, ts, b + 1);
    }
  }

  lemma BeforeTheOpening(cfg: Config, ts: seq<int>, a: nat, p: nat)
    requires Valid(cfg) && First(cfg) >= cfg.window && Ordered(ts) && a < p < |ts|
    requires Opens(cfg, ts, p) && ts[p] - ts[a] < cfg.window && Unpunished(cfg, ts, a, p)
    ensures p - a <= cfg.maxFailures - 2
  {
    forall i | a <= i < p ensures !Opens(cfg, ts, i) {
      if Opens(cfg, ts, i) {
        WindowLasts(cfg, ts, i, p);
      }
    }
    NotTheFirst(cfg, ts, a);
    CountedOnTop(cfg, ts, a, p - 1);
    FailuresStayBelowLimit(cfg, ts, p);
  }

  // ---------------------------------------------------------------------
  // Failures that escape
  // ---------------------------------------------------------------------

  /** A ban at s, then as many as go unpunished at the end of the window and at the start of the next. */
  function RowAt(cfg: Config, s: int, i: nat): int {
    if i < cfg.maxFailures then s
    else if i < 2 * cfg.maxFailures - 1 then s + cfg.window - 1
    else s + cfg.window
  }

  function Row(cfg: Config, s: int): seq<int>
    requires cfg.maxFailures >= 2
  {
    seq(3 * cfg.maxFailures - 2, i requires 0 <= i => RowAt(cfg, s, i))
  }

  lemma RowToTheBan(cfg: Config, s: int)
    requires Valid(cfg) && cfg.maxFailures >= 2 && s >= MAX_INT64
    ensures After(cfg, Row(cfg, s), cfg.maxFailures) == Record(0, s, 1, s + First(cfg))
  {
    var ts := Row(cfg, s);
    Opening(cfg, ts, 0);
    Burst(cfg, ts, 1, cfg.maxFailures - 2, s);
    Strike(cfg, ts, cfg.maxFailures - 1);
  }

  lemma RowToTheEdge(cfg: Config, s: int)
    requires Valid(cfg) && cfg.maxFailures >= 2 && First(cfg) < cfg.window && s >= MAX_INT64
    ensures var ts, m := Row(cfg, s), cfg.maxFailures;
            var r := After(cfg, ts, 2 * m - 1);
            && r.failures == m - 1 && r.windowStart == s && r.bannedUntil == s + First(cfg)
            && forall i :: m <= i < 2 * m - 1 ==> Spared(cfg, ts, i)
  {
    var m, ts := cfg.maxFailures, Row(cfg, s);
    RowToTheBan(cfg, s);
    Burst(cfg, ts, m, m - 1, s + cfg.window - 1);
    assert m + (m - 1) == 2 * m - 1;
  }

  lemma RowInTheNext(cfg: Config, s: int)
    requires Valid(cfg) && cfg.maxFailures >= 2 && First(cfg) < cfg.window && s >= MAX_INT64
    ensures forall i :: 2 * cfg.maxFailures - 1 <= i < 3 * cfg.maxFailures - 2 ==> Spared(cfg, Row(cfg, s), i)
  {
    var m, ts := cfg.maxFailures, Row(cfg, s);
    RowToTheEdge(cfg, s);
    Opening(cfg, ts, 2 * m - 1);
    Burst(cfg, ts, 2 * m, m - 2, s + cfg.window);
  }

  lemma ShortBansLetTheRowPass(cfg: Config, s: int)
    requires Valid(cfg) && cfg.maxFailures >= 2 && First(cfg) < cfg.window && s >= MAX_INT64
    ensures RowEscapes(cfg, Row(cfg, s), cfg.maxFailures, 3 * cfg.maxFailures - 3)
  {
    var m, ts := cfg.maxFailures, Row(cfg, s);
    Lengths(cfg);
    RowToTheEdge(cfg, s);
    RowInTheNext(cfg, s);
    forall k | m <= k <= 3 * m - 3 ensures !Dropped(cfg, ts, k) && !Bans(cfg, ts, k) {
      assert Spared(cfg, ts, k);
    }
  }

  /** 2 * maxFailures - 2 failures in a row of one source inside less than one window are sure to meet a
      ban exactly when a first ban lasts at least a window. */
  lemma OneFewerSufficesIff(cfg: Config)
    requires Valid(cfg) && cfg.maxFailures >= 2
    ensures (forall ts, a: nat, b: nat :: !RowEscapes(cfg, ts, a, b)) <==> First(cfg) >= cfg.window
  {
    if First(cfg) >= cfg.window {
      forall ts, a: nat, b: nat ensures !RowEscapes(cfg, ts, a, b) {
        LongBansCatchTheRow(cfg, ts, a, b);
      }
    } else {
      ShortBansLetTheRowPass(cfg, MAX_INT64);
      assert RowEscapes(cfg, Row(cfg, MAX_INT64), cfg.maxFailures, 3 * cfg.maxFailures - 3);
    }
  }
}
