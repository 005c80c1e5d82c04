/** The SBC's memory of the internal API's answers (api.go). */
module ApiCache {
  import opened Text

  // Clock readings and lifetimes are in nanoseconds.
  const CACHE_TTL: int := 5 * 60 * 1_000_000_000
  const UNKNOWN_TRUNK_TTL: int := 60 * 1_000_000_000

  /** What came back over HTTP; a body of None is not the JSON that was expected. */
  datatype Http<V> = Unreachable | Response(status: int, body: Option<V>)

  datatype Reply<V> = Found(value: V) | NotFound | Failed

  function Reading<V>(http: Http<V>): Reply<V> {
    match http
    case Unreachable => Failed
    case Response(status, body) =>
      if status == 404 then NotFound
      else if status != 200 || body.None? then Failed
      else Found(body.value)
  }

  /** A credentials reply without a password is an error. */
  function CredentialReply(http: Http<string>): Reply<string> {
    var reply := Reading(http);
    if reply == Found("") then Failed else reply
  }

  /** A cache entry; no data caches that the server does not know the key. */
  datatype Entry<V> = Entry(data: Option<V>, expiresAt: int)

  /** How long replies are kept: a 404 only when `unknown` says so. */
  datatype Policy = Policy(unknown: Option<int>)

  const CREDENTIALS := Policy(None)
  const TRUNKS := Policy(Some(UNKNOWN_TRUNK_TTL))

  /** The lifetime of a reply in the cache; None when it is not cached. */
  function Ttl<V>(p: Policy, reply: Reply<V>): Option<int> {
    match reply
    case Found(_) => Some(CACHE_TTL)
    case NotFound => p.unknown
    case Failed => None
  }

  function DataOf<V>(reply: Reply<V>): Option<V> {
    if reply.Found? then Some(reply.value) else None
  }

  /** The entry made of a reply at a clock reading. */
  function Cached<V>(p: Policy, reply: Reply<V>, stampedAt: int): Option<Entry<V>> {
    match Ttl(p, reply)
    case None => None
    case Some(ttl) => Some(Entry(DataOf(reply), stampedAt + ttl))
  }

  function ReplyIn<V>(e: Entry<V>): Reply<V> {
    if e.data.Some? then Found(e.data.value) else NotFound
  }

  // ---------------------------------------------------------------------
  // One lookup that nothing interrupts
  // ---------------------------------------------------------------------

  predicate Hit<V>(cache: map<string, Entry<V>>, key: string, now: int) {
    key in cache && now < cache[key].expiresAt
  }

  function Replied<V>(cache: map<string, Entry<V>>, key: string, now: int, reply: Reply<V>): Reply<V> {
    if Hit(cache, key, now) then ReplyIn(cache[key]) else reply
  }

  function After<V>(p: Policy, cache: map<string, Entry<V>>, key: string, now: int, reply: Reply<V>, stampedAt: int)
    : map<string, Entry<V>>
  {
    if Hit(cache, key, now) then cache
    else
      match Cached(p, reply, stampedAt)
      case None => cache - {key}
      case Some(e) => cache[key := e]
  }

  datatype TrunkData = TrunkData(inboundIps: seq<string>, outboundContact: string,
                                 outboundUser: string, outboundPass: string)

  // ---------------------------------------------------------------------
  // Trunk networks
  // ---------------------------------------------------------------------

  /** trunkNets once cidrs have been learned: the unparsable ones are left out. */
  function Learned<Net>(nets: map<string, Net>, cidrs: seq<string>, parse: string -> Option<Net>): map<string, Net> {
    if cidrs == [] then nets
    else
      var c := cidrs[|cidrs| - 1];
      var before := Learned(nets, cidrs[..|cidrs| - 1], parse);
      if c in before || parse(c).None? then before else before[c := parse(c).value]
  }

  /** The internal API client. Net and IP stand for net.IPNet and net.IP. */
  class InternalAPI<Net, IP> {
    const parseCidr: string -> Option<Net>
    const parseIp: string -> Option<IP>
    const contains: (Net, IP) -> bool
    var credCache: map<string, Entry<string>>
    var trunkCache: map<string, Entry<TrunkData>>
    var trunkNets: map<string, Net>

    ghost predicate Valid()
      reads this
    {
      forall c :: c in trunkNets ==> parseCidr(c) == Some(trunkNets[c])
    }

    constructor (parseCidr: string -> Option<Net>, parseIp: string -> Option<IP>, contains: (Net, IP) -> bool)
      ensures Valid() && credCache == map[] && trunkCache == map[] && trunkNets == map[]
      ensures this.parseCidr == parseCidr && this.parseIp == parseIp && this.contains == contains
    {
      this.parseCidr, this.parseIp, this.contains := parseCidr, parseIp, contains;
      credCache, trunkCache, trunkNets := map[], map[], map[];
    }

    /** http is what the server would answer; now and stampedAt are the two clock readings. */
    method GetUserPassword(username: string, domain: string, now: int, http: Http<string>, stampedAt: int)
      returns (answer: Reply<string>)
      modifies this`credCache
      ensures answer == Replied(old(credCache), username + "@" + domain, now, CredentialReply(http))
      ensures var key := username + "@" + domain;
              key in old(credCache) && now < old(credCache)[key].expiresAt ==>
                && credCache == old(credCache)
                && (old(credCache)[key].data.Some? ==> answer == Found(old(credCache)[key].data.value))
      ensures var key := username + "@" + domain;
              !(key in old(credCache) && now < old(credCache)[key].expiresAt) ==>
                && (answer.NotFound? <==> http.Response? && http.status == 404)
                && (answer.Found? <==> http.Response? && http.status == 200 && http.body.Some? && http.body.value != "")
                && (answer.Found? ==> http.body == Some(answer.value))
                && credCache == if !answer.Found? then old(credCache) - {key}
                                else old(credCache)[key := Entry(http.body, stampedAt + 300_000_000_000)]
      ensures credCache == After(CREDENTIALS, old(credCache), username + "@" + domain, now, CredentialReply(http),
                                 stampedAt)
    {
      var key := username + "@" + domain;
      if key in credCache {
        var entry := credCache[key];
        if now < entry.expiresAt {
          return ReplyIn(entry);
        }
        credCache := credCache - {key};
      }
      if http.Unreachable? {
        return Failed;
      }
      if http.status == 404 {
        return NotFound;
      }
      if http.status != 200 || http.body.None? || http.body.value == "" {
        return Failed;
      }
      credCache := credCache[key := Entry(http.body, stampedAt + CACHE_TTL)];
      answer := Found(http.body.value);
    }

    method GetSIPTrunk(number: string, now: int, http: Http<TrunkData>, stampedAt: int)
      returns (answer: Reply<TrunkData>)
      requires Valid()
      modifies this`trunkCache, this`trunkNets
      ensures Valid()
      ensures answer == Replied(old(trunkCache), number, now, Reading(http))
      ensures number in old(trunkCache) && now < old(trunkCache)[number].expiresAt ==>
                && trunkCache == old(trunkCache)
                && (old(trunkCache)[number].data.Some? ==> answer == Found(old(trunkCache)[number].data.value))
                && (old(trunkCache)[number].data.None? ==> answer.NotFound?)
      ensures !(number in old(trunkCache) && now < old(trunkCache)[number].expiresAt) ==>
                && (answer.NotFound? <==> http.Response? && http.status == 404)
                && (answer.Found? <==> http.Response? && http.status == 200 && http.body.Some?)
                && (answer.Found? ==> http.body == Some(answer.value))
                && trunkCache == if answer.Found?
                                 then old(trunkCache)[number := Entry(http.body, stampedAt + 300_000_000_000)]
                                 else if answer.NotFound?
                                 then old(trunkCache)[number := Entry(None, stampedAt + 60_000_000_000)]
                                 else old(trunkCache) - {number}
      ensures trunkCache == After(TRUNKS, old(trunkCache), number, now, Reading(http), stampedAt)
      ensures trunkNets == if answer.Found? && !Hit(old(trunkCache), number, now)
                           then Learned(old(trunkNets), answer.value.inboundIps, parseCidr) else old(trunkNets)
    {
      if number in trunkCache {
        var entry := trunkCache[number];
        if now < entry.expiresAt {
          return ReplyIn(entry);
        }
        trunkCache := trunkCache - {number};
      }
      if http.Unreachable? {
        return Failed;
      }
      if http.status == 404 {
        trunkCache := trunkCache[number := Entry(None, stampedAt + UNKNOWN_TRUNK_TTL)];
        return NotFound;
      }
      if http.status != 200 || http.body.None? {
        return Failed;
      }
      trunkCache := trunkCache[number := Entry(http.body, stampedAt + CACHE_TTL)];
      RememberTrunkNets(http.body.value.inboundIps);
      answer := Found(http.body.value);
    }

    method RememberTrunkNets(cidrs: seq<string>)
      requires Valid()
      modifies this`trunkNets
      ensures Valid() && trunkNets == Learned(old(trunkNets), cidrs, parseCidr)
    {
      for i := 0 to |cidrs|
        invariant Valid() && trunkNets == Learned(old(trunkNets), cidrs[..i], parseCidr)
      {
        assert cidrs[..i + 1][..i] == cidrs[..i];
        if cidrs[i] !in trunkNets {
          var network := parseCidr(cidrs[i]);
          if network.Some? {
            trunkNets := trunkNets[cidrs[i] := network.value];
          }
        }
      }
      assert cidrs[..|cidrs|] == cidrs;
    }

    method IsTrunkIP(ip: string) returns (known: bool)
      ensures known <==> parseIp(ip).Some? && exists c :: c in trunkNets && contains(trunkNets[c], parseIp(ip).value)
    {
      var parsed := parseIp(ip);
      if parsed.None? {
        return false;
      }
      var left := trunkNets.Keys;
      while left != {}
        invariant left <= trunkNets.Keys
        invariant forall c :: c in trunkNets && c !in left ==> !contains(trunkNets[c], parsed.value)
        decreases |left|
      {
        var c :| c in left;
        if contains(trunkNets[c], parsed.value) {
          return true;
        }
        left := left - {c};
      }
      known := false;
    }
  }

  // ---------------------------------------------------------------------
  // What is learned stays learned
  // ---------------------------------------------------------------------

  ghost predicate Faithful<Net>(nets: map<string, Net>, parse: string -> Option<Net>) {
    forall c :: c in nets ==> parse(c) == Some(nets[c])
  }

  lemma {:induction false} LearnedKeys<Net>(nets: map<string, Net>, cidrs: seq<string>, parse: string -> Option<Net>)
    requires Faithful(nets, parse)
    ensures Faithful(Learned(nets, cidrs, parse), parse)
    ensures forall c :: c in Learned(nets, cidrs, parse) <==> c in nets || (c in cidrs && parse(c).Some?)
  {
    if cidrs != [] {
      var front := cidrs[..|cidrs| - 1];
      LearnedKeys(nets, front, parse);
      assert cidrs == front + [cidrs[|cidrs| - 1]];
    }
  }

  /** trunkNets after the trunk lists in `lists` have been learned, one after the other. */
  function LearnedAll<Net>(lists: seq<seq<string>>, parse: string -> Option<Net>): map<string, Net> {
    if lists == [] then map[]
    else Learned(LearnedAll(lists[..|lists| - 1], parse), lists[|lists| - 1], parse)
  }

  predicate Mentions(lists: seq<seq<string>>, cidr: string) { exists l :: l in lists && cidr in l }

  /** IsTrunkIP's loop, as a condition. */
  ghost predicate Inside<Net(!new), IP(!new)>(nets: map<string, Net>, contains: (Net, IP) -> bool, ip: IP) {
    exists c :: c in nets && contains(nets[c], ip)
  }

  lemma {:induction false} LearnedAllKeys<Net>(lists: seq<seq<string>>, parse: string -> Option<Net>)
    ensures Faithful(LearnedAll(lists, parse), parse)
    ensures forall c :: c in LearnedAll(lists, parse) <==> Mentions(lists, c) && parse(c).Some?
  {
    if lists != [] {
      var front, last := lists[..|lists| - 1], lists[|lists| - 1];
      LearnedAllKeys(front, parse);
      LearnedKeys(LearnedAll(front, parse), last, parse);
      assert lists == front + [last];
    }
  }

  /** An address is a trunk's iff a CIDR of any trunk ever looked up contains it. */
  lemma TrunkIpIffLearned<Net(!new), IP(!new)>(lists: seq<seq<string>>, parse: string -> Option<Net>,
                                              contains: (Net, IP) -> bool, ip: IP)
    ensures Inside(LearnedAll(lists, parse), contains, ip) <==>
              exists c :: Mentions(lists, c) && parse(c).Some? && contains(parse(c).value, ip)
  {
    LearnedAllKeys(lists, parse);
  }

  /** Nothing learned later takes a trunk address away. */
  lemma TrunkIpIsForever<Net(!new), IP(!new)>(lists: seq<seq<string>>, more: seq<seq<string>>,
                                             parse: string -> Option<Net>, contains: (Net, IP) -> bool, ip: IP)
    requires Inside(LearnedAll(lists, parse), contains, ip)
    ensures Inside(LearnedAll(lists + more, parse), contains, ip)
  {
    LearnedAllKeys(lists, parse);
    LearnedAllKeys(lists + more, parse);
    var c :| c in LearnedAll(lists, parse) && contains(LearnedAll(lists, parse)[c], ip);
    assert Mentions(lists + more, c);
    assert c in LearnedAll(lists + more, parse);
  }
}
