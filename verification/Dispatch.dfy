/** Round-robin choice among the FreeSWITCH instances. */
module Dispatch {
  import opened Text

  const TWO64: nat := 0x1_0000_0000_0000_0000

  predicate NoDuplicates(ts: seq<string>) {
    forall i, j :: 0 <= i < j < |ts| ==> ts[i] != ts[j]
  }

  /** ts without uri, the others in order. */
  function Without(ts: seq<string>, uri: string): seq<string> {
    if ts == [] then []
    else if ts[0] == uri then Without(ts[1..], uri)
    else [ts[0]] + Without(ts[1..], uri)
  }

  /** The atomic 64-bit counter after one selection; unused while there is no target. */
  function NextCounter(counter: nat, ts: seq<string>): nat {
    if ts == [] then counter else (counter + 1) % TWO64
  }

  /** The position that counter value v selects. */
  function Index(v: nat, n: nat): (r: nat)
    requires 0 < n
    ensures r < n
  {
    v % TWO64 % n
  }

  function Selected(counter: nat, ts: seq<string>): Option<string> {
    if ts == [] then None else Some(ts[Index(counter + 1, |ts|)])
  }

  /** The last position of c, or -1. */
  function LastIndexOf(s: string, c: char): (i: int)
    ensures -1 <= i < |s| && (i >= 0 ==> s[i] == c)
  {
    if s == "" then -1 else if s[|s| - 1] == c then |s| - 1 else LastIndexOf(s[..|s| - 1], c)
  }

  /** sourceIPFromRequest: the host of a source address as net.SplitHostPort reads it, or
      the whole text where that fails. */
  function SourceIP(source: string): string {
    var i := LastIndexOf(source, ':');
    if i < 0 then source
    else if source[0] == '[' then
      var end := IndexOf(source, ']');
      if end < 0 || end + 1 != i || '[' in source[1..] || ']' in source[i..] then source else source[1..end]
    else
      var host := source[..i];
      if ':' in host || '[' in source || ']' in source then source else host
  }

  /** The target that makes requests from an address count as FreeSWITCH's. */
  function FsUri(ip: string): string { "sip:" + ip + ":5070" }

  lemma FsUriIsInjective(ip: string, ip': string)
    requires FsUri(ip) == FsUri(ip')
    ensures ip == ip'
  {
    assert FsUri(ip)[4..|FsUri(ip)| - 5] == ip && FsUri(ip')[4..|FsUri(ip')| - 5] == ip';
  }

  predicate FromFS(targets: seq<string>, source: string) { FsUri(SourceIP(source)) in targets }

  function Added(ts: seq<string>, uri: string): seq<string> { if uri in ts then ts else ts + [uri] }

  lemma AddedKeepsNoDuplicates(ts: seq<string>, uri: string)
    requires NoDuplicates(ts)
    ensures NoDuplicates(Added(ts, uri))
    ensures forall t :: t in Added(ts, uri) <==> t in ts || t == uri
  {
  }

  /** An IPv4 address with its port. */
  lemma SourceIPOf(ip: string, port: string)
    requires ':' !in ip && '[' !in ip && ']' !in ip && ':' !in port && '[' !in port && ']' !in port
    ensures SourceIP(ip + ":" + port) == ip
  {
    var source := ip + ":" + port;
    LastColon(source, ip, port);
    assert source[..|ip|] == ip;
    assert '[' !in source && ']' !in source;
  }

  /** An IPv6 address in brackets with its port. */
  lemma BracketedSourceIPOf(ip: string, port: string)
    requires '[' !in ip && ']' !in ip && ':' !in port && '[' !in port && ']' !in port
    ensures SourceIP("[" + ip + "]:" + port) == ip
  {
    var source := "[" + ip + "]:" + port;
    assert source == ("[" + ip + "]") + [':'] + port;
    LastColon(source, "[" + ip + "]", port);
    var end := |ip| + 1;
    assert source[end] == ']' && source[..end] == "[" + ip && source[1..] == ip + "]:" + port;
    IndexOfIsFirst(source, ']', end);
    assert source[end + 1..] == ":" + port && source[1..end] == ip;
  }

  /** A text that is no address with a port stands for itself: no colon at all, or more than one
      without brackets. */
  lemma NotSplitSourceIP(source: string)
    ensures ':' !in source ==> SourceIP(source) == source
    ensures source != "" && source[0] != '[' ==>
              && ('[' in source || ']' in source ==> SourceIP(source) == source)
              && forall i, j ::
                   0 <= i < j < |source| && source[i] == ':' && source[j] == ':' ==> SourceIP(source) == source
  {
    if i, j :| 0 <= i < j < |source| && source[i] == ':' && source[j] == ':' {
      LastIsLast(source, ':', j);
      assert source[..LastIndexOf(source, ':')][i] == ':';
    }
  }

  lemma {:induction false} LastIsLast(s: string, c: char, j: nat)
    requires j < |s| && s[j] == c
    ensures j <= LastIndexOf(s, c)
    decreases |s|
  {
    if s[|s| - 1] != c {
      LastIsLast(s[..|s| - 1], c, j);
    }
  }

  lemma {:induction false} LastColon(source: string, ip: string, port: string)
    requires source == ip + [':'] + port && ':' !in port
    ensures LastIndexOf(source, ':') == |ip|
    decreases |port|
  {
    var n := |source| - 1;
    if port != "" {
      assert source[n] == port[|port| - 1];
      LastColon(source[..n], ip, port[..|port| - 1]);
    }
  }

  class Dispatcher {
    var targets: seq<string>
    var counter: nat

    predicate Valid()
      reads this
    {
      counter < TWO64 && NoDuplicates(targets)
    }

    constructor ()
      ensures Valid() && targets == [] && counter == 0
    {
      targets, counter := [], 0;
    }

    /** counter.Add(1) % len(targets), read under the lock. */
    method SelectTarget() returns (target: Option<string>)
      requires Valid()
      modifies this`counter
      ensures Valid() && counter == NextCounter(old(counter), targets)
      ensures target == Selected(old(counter), targets)
    {
      if |targets| == 0 {
        return None;
      }
      counter := (counter + 1) % TWO64;
      target := Some(targets[counter % |targets|]);
    }

    method AddTarget(uri: string)
      requires Valid()
      modifies this`targets
      ensures Valid()
      ensures targets == Added(old(targets), uri)
    {
      for i := 0 to |targets|
        invariant targets == old(targets) && uri !in targets[..i]
      {
        if targets[i] == uri {
          return;
        }
      }
      targets := targets + [uri];
    }

    method RemoveTarget(uri: string)
      requires Valid()
      modifies this`targets
      ensures Valid() && targets == Without(old(targets), uri)
    {
      WithoutKeepsNoDuplicates(targets, uri);
      for i := 0 to |targets|
        invariant targets == old(targets) && uri !in targets[..i]
      {
        if targets[i] == uri {
          WithoutIsSplice(targets, uri, i);
          targets := targets[..i] + targets[i + 1..];
          return;
        }
      }
      WithoutAbsent(targets, uri);
    }

    method IsFromFS(sourceIP: string) returns (known: bool)
      ensures known <==> "sip:" + sourceIP + ":5070" in targets
    {
      for i := 0 to |targets|
        invariant FsUri(sourceIP) !in targets[..i]
      {
        if targets[i] == "sip:" + sourceIP + ":5070" {
          return true;
        }
      }
      known := false;
    }
  }

  // ---------------------------------------------------------------------
  // The target list
  // ---------------------------------------------------------------------

  lemma {:induction false} WithoutAbsent(ts: seq<string>, uri: string)
    requires uri !in ts
    ensures Without(ts, uri) == ts
  {
    if ts != [] {
      WithoutAbsent(ts[1..], uri);
    }
  }

  /** Removal is one splice at the only occurrence, so the others keep their order. */
  lemma {:induction false} WithoutIsSplice(ts: seq<string>, uri: string, i: nat)
    requires NoDuplicates(ts) && i < |ts| && ts[i] == uri
    ensures Without(ts, uri) == ts[..i] + ts[i + 1..]
  {
    if i == 0 {
      WithoutAbsent(ts[1..], uri);
    } else {
      WithoutIsSplice(ts[1..], uri, i - 1);
      assert ts[..i] == [ts[0]] + ts[1..][..i - 1];
    }
  }

  lemma {:induction false} WithoutKeepsNoDuplicates(ts: seq<string>, uri: string)
    requires NoDuplicates(ts)
    ensures NoDuplicates(Without(ts, uri))
    ensures forall t :: t in Without(ts, uri) <==> t in ts && t != uri
  {
    if ts != [] {
      var rest := Without(ts[1..], uri);
      WithoutKeepsNoDuplicates(ts[1..], uri);
      assert ts[0] !in ts[1..] && ts[0] !in rest;
    }
  }

  /** Removing what was just added gives the list back. */
  lemma {:induction false} AddThenRemove(ts: seq<string>, uri: string)
    requires NoDuplicates(ts) && uri !in ts
    ensures Without(ts + [uri], uri) == ts
  {
    WithoutIsSplice(ts + [uri], uri, |ts|);
    assert (ts + [uri])[..|ts|] + (ts + [uri])[|ts| + 1..] == ts;
  }

  // ---------------------------------------------------------------------
  // Fairness
  // ---------------------------------------------------------------------

  /** The answers of k selections with no change to the targets between them. */
  function Picks(counter: nat, ts: seq<string>, k: nat): (picks: seq<string>)
    requires ts != []
    ensures |picks| == k
    decreases k
  {
    if k == 0 then []
    else [Selected(counter, ts).value] + Picks(NextCounter(counter, ts), ts, k - 1)
  }

  lemma WrappedIndex(c: nat, j: nat, n: nat)
    requires 0 < n
    ensures Index(c % TWO64 + j, n) == Index(c + j, n)
  {
    var rest := c % TWO64 + j;
    assert c + j == TWO64 * (c / TWO64 + rest / TWO64) + rest % TWO64;
    ModOfMultiple(c / TWO64 + rest / TWO64, rest % TWO64, TWO64);
  }

  lemma SmallIndex(v: nat, n: nat)
    requires 0 < n && v < TWO64
    ensures Index(v, n) == v % n
  {
  }

  /** The j-th selection reads the counter j + 1 further on, modulo 2^64. */
  lemma {:induction false} PickAt(counter: nat, ts: seq<string>, k: nat, j: nat)
    requires ts != [] && j < k
    ensures Picks(counter, ts, k)[j] == ts[Index(counter + 1 + j, |ts|)]
    decreases j
  {
    if j > 0 {
      PickAt(NextCounter(counter, ts), ts, k - 1, j - 1);
      WrappedIndex(counter + 1, j, |ts|);
    }
  }

  lemma {:induction false} PicksAppend(counter: nat, ts: seq<string>, a: nat, b: nat, k: nat)
    requires ts != [] && counter + a < TWO64 && k == a + b
    ensures Picks(counter, ts, k) == Picks(counter, ts, a) + Picks(counter + a, ts, b)
    decreases a
  {
    if a > 0 {
      FirstPick(counter, ts, a);
      FirstPick(counter, ts, k);
      PicksAppend(counter + 1, ts, a - 1, b, k - 1);
      ConsAppend(ts[Index(counter + 1, |ts|)], Picks(counter + 1, ts, a - 1), Picks(counter + a, ts, b));
    }
  }

  lemma FirstPick(counter: nat, ts: seq<string>, k: nat)
    requires ts != [] && k > 0 && counter + 1 < TWO64
    ensures Picks(counter, ts, k) == [ts[Index(counter + 1, |ts|)]] + Picks(counter + 1, ts, k - 1)
  {
    assert NextCounter(counter, ts) == counter + 1;
  }

  lemma ConsAppend(x: string, p: seq<string>, q: seq<string>)
    ensures ([x] + p) + q == [x] + (p + q)
  {
  }

  lemma MulGrows(n: int, d: int)
    requires n >= 0
    ensures d >= 1 ==> n * d >= n
    ensures d <= -1 ==> n * d <= -n
  {
    assert n * d == n * (d - 1) + n;
  }

  /** Quotient and remainder are unique. */
  lemma ModOfMultiple(q: nat, r: nat, n: nat)
    requires r < n
    ensures (n * q + r) % n == r && (n * q + r) / n == q
  {
    var x := n * q + r;
    var d := x / n - q;
    assert n * d == n * (x / n) - n * q;
    assert x == n * (x / n) + x % n;
    MulGrows(n, d);
  }

  lemma ModDistinct(a: nat, b: nat, n: nat)
    requires 0 < n && a < b < a + n
    ensures a % n != b % n
  {
    var d := b / n - a / n;
    assert n * d == n * (b / n) - n * (a / n);
    MulGrows(n, d);
  }

  lemma ModReaches(c: nat, r: nat, n: nat) returns (j: nat)
    requires r < n
    ensures j < n && (c + j) % n == r
  {
    var m := c % n;
    j := if m <= r then r - m else r + n - m;
    assert c == n * (c / n) + m;
    var q := if m <= r then c / n else c / n + 1;
    assert c + j == n * q + r;
    ModOfMultiple(q, r, n);
  }

  /** How often t is in s. */
  function Times(s: seq<string>, t: string): nat {
    if s == [] then 0 else (if s[0] == t then 1 else 0) + Times(s[1..], t)
  }

  lemma {:induction false} TimesAppend(a: seq<string>, b: seq<string>, s: seq<string>, t: string)
    requires s == a + b
    ensures Times(s, t) == Times(a, t) + Times(b, t)
  {
    if a == [] {
      assert s == b;
    } else {
      TimesAppend(a[1..], b, s[1..], t);
    }
  }

  lemma {:induction false} CountWithoutDuplicates(s: seq<string>, t: string)
    requires NoDuplicates(s)
    ensures Times(s, t) == if t in s then 1 else 0
  {
    if s != [] {
      CountWithoutDuplicates(s[1..], t);
    }
  }

  lemma PicksDiffer(counter: nat, ts: seq<string>, k: nat)
    requires NoDuplicates(ts) && k <= |ts| && ts != [] && counter + k < TWO64
    ensures NoDuplicates(Picks(counter, ts, k))
  {
    var picks := Picks(counter, ts, k);
    forall i, j | 0 <= i < j < k ensures picks[i] != picks[j] {
      PickAt(counter, ts, k, i);
      PickAt(counter, ts, k, j);
      SmallIndex(counter + 1 + i, |ts|);
      SmallIndex(counter + 1 + j, |ts|);
      ModDistinct(counter + 1 + i, counter + 1 + j, |ts|);
    }
  }

  lemma RoundReaches(counter: nat, ts: seq<string>, t: string)
    requires t in ts && counter + |ts| < TWO64
    ensures t in Picks(counter, ts, |ts|)
  {
    var r :| 0 <= r < |ts| && ts[r] == t;
    var j := ModReaches(counter + 1, r, |ts|);
    PickAt(counter, ts, |ts|, j);
    SmallIndex(counter + 1 + j, |ts|);
    assert Picks(counter, ts, |ts|)[j] == t;
  }

  lemma PartialRound(counter: nat, ts: seq<string>, k: nat, t: string)
    requires NoDuplicates(ts) && k <= |ts| && t in ts && counter + k < TWO64
    ensures Times(Picks(counter, ts, k), t) <= 1
    ensures k == |ts| ==> Times(Picks(counter, ts, k), t) == 1
  {
    PicksDiffer(counter, ts, k);
    CountWithoutDuplicates(Picks(counter, ts, k), t);
    if k == |ts| {
      RoundReaches(counter, ts, t);
    }
  }

  /** n * q + r. */
  function Total(n: nat, q: nat, r: nat): nat {
    if q == 0 then r else n + Total(n, q - 1, r)
  }

  lemma {:induction false} TotalIs(n: nat, q: nat, r: nat)
    ensures Total(n, q, r) == n * q + r
  {
    if q > 0 {
      TotalIs(n, q - 1, r);
    }
  }

  /** q rounds and r selections more choose every target q times, and some once more if r > 0. */
  lemma {:induction false} Rounds(counter: nat, ts: seq<string>, q: nat, r: nat, k: nat, t: string)
    requires NoDuplicates(ts) && t in ts && r < |ts| && k == Total(|ts|, q, r) && counter + k < TWO64
    ensures q <= Times(Picks(counter, ts, k), t) <= if r == 0 then q else q + 1
    decreases q
  {
    if q == 0 {
      PartialRound(counter, ts, r, t);
      assert r == 0 ==> Picks(counter, ts, r) == [];
    } else {
      PartialRound(counter, ts, |ts|, t);
      FirstRound(counter, ts, k, t);
      Rounds(counter + |ts|, ts, q - 1, r, k - |ts|, t);
    }
  }

  lemma FirstRound(counter: nat, ts: seq<string>, k: nat, t: string)
    requires ts != [] && counter + |ts| < TWO64 && |ts| <= k
    ensures Times(Picks(counter, ts, k), t)
            == Times(Picks(counter, ts, |ts|), t) + Times(Picks(counter + |ts|, ts, k - |ts|), t)
  {
    PicksAppend(counter, ts, |ts|, k - |ts|, k);
    TimesAppend(Picks(counter, ts, |ts|), Picks(counter + |ts|, ts, k - |ts|), Picks(counter, ts, k), t);
  }

  /** Over k selections every target is chosen floor(k/n) or ceil(k/n) times. */
  lemma {:induction false} Fairness(counter: nat, ts: seq<string>, k: nat, t: string)
    requires NoDuplicates(ts) && t in ts && counter + k < TWO64
    ensures k / |ts| <= Times(Picks(counter, ts, k), t) <= (k + |ts| - 1) / |ts|
  {
    var q, r := Quotients(k, |ts|);
    Rounds(counter, ts, q, r, k, t);
  }

  lemma Quotients(k: nat, n: nat) returns (q: nat, r: nat)
    requires 0 < n
    ensures r < n && k == Total(n, q, r)
    ensures k / n == q && (k + n - 1) / n == if r == 0 then q else q + 1
  {
    q, r := k / n, k % n;
    TotalIs(n, q, r);
    if r == 0 {
      ModOfMultiple(q, n - 1, n);
    } else {
      MulStep(n, q);
      ModOfMultiple(q + 1, r - 1, n);
    }
  }

  lemma MulStep(n: nat, q: nat)
    ensures n * (q + 1) == n * q + n
  {
  }

  /**
   * Any n consecutive selections visit every target once, if and only if the round does not
   * step over the counter's wrap to 0, or n divides 2^64.
   */
  lemma {:induction false} RoundVisitsEachOnceIff(counter: nat, ts: seq<string>)
    requires NoDuplicates(ts) && 0 < |ts| <= TWO64 && counter < TWO64
    ensures NoDuplicates(Picks(counter, ts, |ts|)) <==>
              counter + |ts| < TWO64 || counter == TWO64 - 1 || TWO64 % |ts| == 0
  {
    var n := |ts|;
    var picks := Picks(counter, ts, n);
    forall j | 0 <= j < n
      ensures picks[j] == ts[Residue(counter + 1 + j, n)]
    {
      PickAt(counter, ts, n, j);
      WrapOnce(counter + 1 + j, n);
    }
    if counter + n < TWO64 || counter == TWO64 - 1 || TWO64 % n == 0 {
      forall i, j | 0 <= i < j < n ensures picks[i] != picks[j] {
        ResiduesDiffer(counter + 1 + i, counter + 1 + j, n, counter);
      }
    } else {
      var i, j := RepeatedPick(counter, n);
      assert picks[i] == picks[j];
    }
  }

  /** v modulo 2^64 modulo n, for v < 2 * 2^64. */
  function Residue(v: nat, n: nat): (r: nat)
    requires 0 < n
    ensures r < n
  {
    if v < TWO64 then v % n else (v - TWO64) % n
  }

  lemma WrapOnce(v: nat, n: nat)
    requires 0 < n && v < 2 * TWO64
    ensures Index(v, n) == Residue(v, n)
  {
  }

  lemma ResiduesDiffer(a: nat, b: nat, n: nat, counter: nat)
    requires 0 < n <= TWO64 && counter < a < b < a + n && b <= counter + n && counter < TWO64
    requires counter + n < TWO64 || counter == TWO64 - 1 || TWO64 % n == 0
    ensures Residue(a, n) != Residue(b, n)
  {
    if b < TWO64 {
      ModDistinct(a, b, n);
    } else if a >= TWO64 {
      ModDistinct(a - TWO64, b - TWO64, n);
    } else {
      assert TWO64 % n == 0;
      var w := TWO64 / n;
      assert b == n * (w + (b - TWO64) / n) + (b - TWO64) % n;
      ModOfMultiple(w + (b - TWO64) / n, (b - TWO64) % n, n);
      ModDistinct(a, b, n);
    }
  }

  /** A round over the wrap whose two halves do not fit together picks some target twice. */
  lemma RepeatedPick(counter: nat, n: nat) returns (i: nat, j: nat)
    requires 0 < n <= TWO64 && counter < TWO64 - 1 && counter + n >= TWO64 && TWO64 % n != 0
    ensures i < j < n && Residue(counter + 1 + i, n) == Residue(counter + 1 + j, n)
  {
    var m, q := TWO64 % n, TWO64 / n;
    assert TWO64 == n * q + m;
    var before := TWO64 - 1 - counter;
    var r := if m + before <= n then m - 1 else n - before - 1;
    i, j := before + r - m, before + r;
    ModOfMultiple(q, r, n);
    ModOfMultiple(0, r, n);
    assert counter + 1 + i == n * q + r;
    assert counter + 1 + j - TWO64 == n * 0 + r;
  }
}
