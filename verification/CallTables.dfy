/** The proxy's tables of active calls: the call table, the user-to-FreeSWITCH
    affinity index and the spoofed-caller cache. */
module CallTables {
  import opened Text
  import Dispatch

  type CallId = string
  type Addr = string
  type Aor = string

  datatype CallState = CallState(fsAddr: Addr, fsURI: string, userAddr: Addr, userURI: string,
                                 userAORs: seq<Aor>, isWebRTC: bool, spoofedUser: string, fsCSeqOffset: nat)

  type Affinity = map<Aor, map<CallId, Addr>>

  /** The FreeSWITCH address user u is pinned to by call c. */
  function Pin(a: Affinity, u: Aor, c: CallId): Option<Addr> {
    if u in a && c in a[u] then Some(a[u][c]) else None
  }

  predicate NoEmptyInner(a: Affinity) { forall u :: u in a ==> a[u] != map[] }

  function SaveOne(a: Affinity, c: CallId, fs: Addr, u: Aor): Affinity {
    a[u := (if u in a then a[u] else map[])[c := fs]]
  }

  function SaveEach(a: Affinity, c: CallId, fs: Addr, users: seq<Aor>): Affinity {
    if users == [] then a else SaveOne(SaveEach(a, c, fs, users[..|users| - 1]), c, fs, users[|users| - 1])
  }

  function Saved(a: Affinity, c: CallId, fs: Addr, users: seq<Aor>): Affinity {
    if users == [] || fs == "" then a else SaveEach(a, c, fs, users)
  }

  function DropOne(a: Affinity, c: CallId, u: Aor): Affinity {
    if u !in a then a
    else if a[u] - {c} == map[] then a - {u}
    else a[u := a[u] - {c}]
  }

  function Dropped(a: Affinity, c: CallId, users: seq<Aor>): Affinity {
    if users == [] then a else DropOne(Dropped(a, c, users[..|users| - 1]), c, users[|users| - 1])
  }

  lemma DroppedNext(a: Affinity, c: CallId, users: seq<Aor>, i: nat)
    requires i < |users|
    ensures Dropped(a, c, users[..i + 1]) == DropOne(Dropped(a, c, users[..i]), c, users[i])
  {
    assert users[..i + 1][..i] == users[..i];
  }

  lemma SaveOnePins(a: Affinity, c: CallId, fs: Addr, u: Aor)
    requires NoEmptyInner(a)
    ensures NoEmptyInner(SaveOne(a, c, fs, u))
    ensures forall v, d :: Pin(SaveOne(a, c, fs, u), v, d) == if d == c && v == u then Some(fs) else Pin(a, v, d)
  {
    assert c in SaveOne(a, c, fs, u)[u];
  }

  lemma SaveEachPins(a: Affinity, c: CallId, fs: Addr, users: seq<Aor>)
    requires NoEmptyInner(a)
    ensures NoEmptyInner(SaveEach(a, c, fs, users))
    ensures forall u, d :: Pin(SaveEach(a, c, fs, users), u, d) ==
                           if d == c && u in users then Some(fs) else Pin(a, u, d)
  {
    if users != [] {
      var rest, u0 := users[..|users| - 1], users[|users| - 1];
      SaveEachPins(a, c, fs, rest);
      SaveOnePins(SaveEach(a, c, fs, rest), c, fs, u0);
      assert users == rest + [u0];
    }
  }

  /** saveAffinity pins exactly the listed users of that one call. */
  lemma SavedPins(a: Affinity, c: CallId, fs: Addr, users: seq<Aor>)
    requires NoEmptyInner(a)
    ensures NoEmptyInner(Saved(a, c, fs, users))
    ensures forall u, d :: Pin(Saved(a, c, fs, users), u, d) ==
                           if d == c && u in users && fs != "" then Some(fs) else Pin(a, u, d)
  {
    if users != [] && fs != "" {
      SaveEachPins(a, c, fs, users);
    }
  }

  lemma DropOnePins(a: Affinity, c: CallId, u: Aor)
    requires NoEmptyInner(a)
    ensures NoEmptyInner(DropOne(a, c, u))
    ensures forall v, d :: Pin(DropOne(a, c, u), v, d) == if d == c && v == u then None else Pin(a, v, d)
  {
    if u in a && a[u] - {c} == map[] {
      assert (a[u] - {c}).Keys == a[u].Keys - {c};
      assert forall d :: d in a[u].Keys - {c} <==> d in a[u] && d != c;
    }
  }

  /** deleteAffinity unpins exactly the listed users of that one call, and leaves no empty inner map. */
  lemma DroppedPins(a: Affinity, c: CallId, users: seq<Aor>)
    requires NoEmptyInner(a)
    ensures NoEmptyInner(Dropped(a, c, users))
    ensures forall u, d :: Pin(Dropped(a, c, users), u, d) == if d == c && u in users then None else Pin(a, u, d)
  {
    if users != [] {
      DroppedPins(a, c, users[..|users| - 1]);
      DropOnePins(Dropped(a, c, users[..|users| - 1]), c, users[|users| - 1]);
    }
  }

  /** Why Call-IDs must not be reused while a handler still owes its deferred
      deleteAffinity: the retry's pin goes with it. The other order is harmless. */
  lemma EarlyRetryLosesItsPin(a: Affinity, c: CallId, fs: Addr, fs': Addr, users: seq<Aor>, u: Aor)
    requires NoEmptyInner(a) && fs != "" && fs' != "" && u in users
    ensures Pin(Dropped(Saved(Saved(a, c, fs, users), c, fs', users), c, users), u, c) == None
    ensures Pin(Saved(Dropped(Saved(a, c, fs, users), c, users), c, fs', users), u, c) == Some(fs')
  {
    SavedPins(a, c, fs, users);
    SavedPins(Saved(a, c, fs, users), c, fs', users);
    DroppedPins(Saved(Saved(a, c, fs, users), c, fs', users), c, users);
    DroppedPins(Saved(a, c, fs, users), c, users);
    SavedPins(Dropped(Saved(a, c, fs, users), c, users), c, fs', users);
  }

  // ---------------------------------------------------------------------
  // The spoofed-caller cache key
  // ---------------------------------------------------------------------

  function SpoofKey(c: CallId, user: string): string { c + "::" + user }

  lemma NoColonAfter(c: CallId, u: string)
    requires ':' !in u
    ensures var k := SpoofKey(c, u); k[|k| - |u| - 1] == ':' && forall i :: |k| - |u| <= i < |k| ==> k[i] != ':'
  {
    var k := SpoofKey(c, u);
    assert forall i :: |k| - |u| <= i < |k| ==> k[i] == u[i - (|k| - |u|)];
  }

  /** A SIP user part holds no ':' (that would start a password), so a cache key
      belongs to one call and one caller. */
  lemma SpoofKeyIsInjective(c: CallId, u: string, c': CallId, u': string)
    requires ':' !in u && ':' !in u' && SpoofKey(c, u) == SpoofKey(c', u')
    ensures c == c' && u == u'
  {
    var k := SpoofKey(c, u);
    NoColonAfter(c, u);
    NoColonAfter(c', u');
    assert |u| == |u'|;
    assert u == k[|k| - |u|..] == u';
    assert c == k[..|c|] == c';
  }

  /** Without that, two different calls can share a key. */
  lemma SpoofKeyCollides()
    ensures SpoofKey("a", "b::c") == SpoofKey("a::b", "c")
  {
    assert SpoofKey("a", "b::c") == "a::b::c" == SpoofKey("a::b", "c");
  }

  // ---------------------------------------------------------------------
  // The proxy object
  // ---------------------------------------------------------------------

  /** users[k] is the first listed user with any pinned call. */
  predicate FirstPinned(a: Affinity, users: seq<Aor>, k: int) {
    && 0 <= k < |users| && users[k] in a && a[users[k]] != map[]
    && forall j :: 0 <= j < k ==> users[j] !in a || a[users[j]] == map[]
  }

  function TrimPrefix(s: string, prefix: string): string { if prefix <= s then s[|prefix|..] else s }

  /** stripSIPPrefix. */
  function StripSip(uri: string): Addr {
    var dest := TrimPrefix(TrimPrefix(uri, "sip:"), "sips:");
    if ':' in dest then dest else dest + ":5060"
  }

  lemma NoSipsPrefix(host: string, port: string)
    requires ':' !in host && host != "sips"
    ensures !("sips:" <= host + ":" + port)
  {
    var prefix, dest := "sips:", host + ":" + port;
    assert dest[|host|] == ':' && dest[..|host|] == host && prefix[4] == ':';
    if |host| > 4 {
      assert dest[4] == host[4];
    } else if |host| == 4 {
      assert dest[..4] == host && prefix[..4] == "sips";
    } else {
      assert prefix[|host|] != ':';
    }
  }

  /** A target's address, with its port, is what follows the scheme. */
  lemma StripSipOf(host: string, port: string)
    requires ':' !in host && host != "sips"
    ensures StripSip("sip:" + (host + ":" + port)) == host + ":" + port
  {
    var dest := host + ":" + port;
    assert ("sip:" + dest)[..4] == "sip:" && ("sip:" + dest)[4..] == dest;
    NoSipsPrefix(host, port);
  }

  /** Without a port, 5060. */
  lemma StripSipOfHost(host: string)
    requires ':' !in host
    ensures StripSip("sip:" + host) == host + ":5060"
  {
    assert ("sip:" + host)[..4] == "sip:" && ("sip:" + host)[4..] == host;
    if |host| > 4 {
      assert host[4] != ':' && "sips:"[4] == ':';
    }
  }

  /** The FreeSWITCH addresses that the affinity index may give for a list of users; none if no listed
      user has a call. */
  ghost predicate MayBePinned(a: Affinity, users: seq<Aor>, pinned: Option<Addr>) {
    match pinned
    case Some(fs) => exists k, c :: FirstPinned(a, users, k) && c in a[users[k]] && fs == a[users[k]][c]
    case None => forall k :: !FirstPinned(a, users, k)
  }

  /** The targets that may be chosen for a list of users: any FreeSWITCH with a call of the first
      one that has a call, or one of the dispatcher's. */
  ghost predicate MayChoose(a: Affinity, targets: seq<string>, users: seq<Aor>, target: string) {
    || (exists k, c :: FirstPinned(a, users, k) && c in a[users[k]] && target == "sip:" + a[users[k]][c])
    || ((forall k :: !FirstPinned(a, users, k)) && target in targets)
  }

  class Proxy {
    var calls: map<CallId, CallState>
    var affinity: Affinity
    var spoofCache: map<string, string>

    constructor ()
      ensures calls == map[] && affinity == map[] && spoofCache == map[]
    {
      calls, affinity, spoofCache := map[], map[], map[];
    }

    method SaveAffinity(callID: CallId, fsAddr: Addr, users: seq<Aor>)
      modifies this`affinity
      ensures affinity == Saved(old(affinity), callID, fsAddr, users)
    {
      if |users| == 0 || fsAddr == "" {
        return;
      }
      for i := 0 to |users|
        invariant affinity == SaveEach(old(affinity), callID, fsAddr, users[..i])
      {
        var user := users[i];
        assert users[..i + 1][..i] == users[..i];
        if user !in affinity {
          affinity := affinity[user := map[]];
        }
        affinity := affinity[user := affinity[user][callID := fsAddr]];
      }
      assert users[..|users|] == users;
    }

    method DeleteAffinity(callID: CallId, users: seq<Aor>)
      modifies this`affinity
      ensures affinity == Dropped(old(affinity), callID, users)
    {
      for i := 0 to |users|
        invariant affinity == Dropped(old(affinity), callID, users[..i])
      {
        var user := users[i];
        DroppedNext(old(affinity), callID, users, i);
        if user !in affinity {
          continue;
        }
        ghost var was := affinity;
        var callMap := affinity[user] - {callID};
        affinity := affinity[user := callMap];
        if callMap == map[] {
          affinity := affinity - {user};
          assert affinity == was - {user};
        }
      }
      assert users[..|users|] == users;
    }

    method RecordCall(callID: CallId, state: CallState)
      modifies this`calls
      ensures calls == old(calls)[callID := state]
    {
      calls := calls[callID := state];
    }

    /** cleanupCall: the three tables forget the call, one after the other. */
    method CleanupCall(callID: CallId, state: CallState)
      modifies this
      ensures calls == old(calls) - {callID}
      ensures affinity == Dropped(old(affinity), callID, state.userAORs)
      ensures spoofCache == if state.spoofedUser != "" then old(spoofCache) - {SpoofKey(callID, state.spoofedUser)}
                            else old(spoofCache)
    {
      calls := calls - {callID};
      DeleteAffinity(callID, state.userAORs);
      if state.spoofedUser != "" {
        spoofCache := spoofCache - {SpoofKey(callID, state.spoofedUser)};
      }
    }

    /** The FreeSWITCH of any call of the first listed user that has one; the
        dispatcher's round robin only when none has. */
    method SelectTargetForUsers(users: seq<Aor>, dispatcher: Dispatch.Dispatcher) returns (target: Option<Addr>)
      requires dispatcher.Valid() && NoEmptyInner(affinity)
      modifies dispatcher`counter
      ensures forall k :: FirstPinned(affinity, users, k) ==>
                && dispatcher.counter == old(dispatcher.counter)
                && exists c :: c in affinity[users[k]] && target == Some("sip:" + affinity[users[k]][c])
      ensures (forall k :: !FirstPinned(affinity, users, k)) ==>
                && dispatcher.counter == Dispatch.NextCounter(old(dispatcher.counter), dispatcher.targets)
                && target == Dispatch.Selected(old(dispatcher.counter), dispatcher.targets)
      ensures target.Some? ==> MayChoose(affinity, dispatcher.targets, users, target.value)
    {
      for i := 0 to |users|
        invariant forall j :: 0 <= j < i ==> users[j] !in affinity || affinity[users[j]] == map[]
      {
        if users[i] in affinity && affinity[users[i]].Keys != {} {
          var c :| c in affinity[users[i]].Keys;
          assert FirstPinned(affinity, users, i);
          return Some("sip:" + affinity[users[i]][c]);
        }
      }
      target := dispatcher.SelectTarget();
    }
  }
}
