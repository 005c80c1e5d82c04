/** Route sets: dropping our own hops from the Route headers of a request. */
module RouteSet {
  import opened Text

  /** The SBC's addresses; what it advertises in Record-Route uses the configured ports. */
  datatype Hops = Hops(publicIP: string, privateIP: string, publicPort: nat, privatePort: nat)

  function PublicMarker(h: Hops): string { h.publicIP + ":5060" }

  function PrivateMarker(h: Hops): string { h.privateIP + ":5065" }

  /** Whether an entry stays, given the hop it sends to. */
  predicate Stays(h: Hops, hop: string, keepHop: string) {
    var isPublic, isPrivate := hop == PublicMarker(h), hop == PrivateMarker(h);
    if isPublic || isPrivate then (keepHop == "public" && isPublic) || (keepHop == "private" && isPrivate)
    else true
  }

  /** The non-blank parts, trimmed. */
  function Clean(parts: seq<string>): seq<string> {
    if parts == [] then []
    else (if Trim(parts[0]) == "" then [] else [Trim(parts[0])]) + Clean(parts[1..])
  }

  /** The entries of a Route header value, in order. */
  function Entries(value: string): seq<string> { Clean(Split(value, ',')) }

  /** The entries that stay, in order. */
  function Select(h: Hops, es: seq<string>, hopOf: string -> string, keepHop: string): seq<string> {
    if es == [] then []
    else (if Stays(h, hopOf(es[0]), keepHop) then [es[0]] else []) + Select(h, es[1..], hopOf, keepHop)
  }

  function Filtered(h: Hops, value: string, hopOf: string -> string, keepHop: string): string {
    Join(Select(h, Entries(value), hopOf, keepHop), ", ")
  }

  lemma CleanCons(p: string, parts: seq<string>)
    ensures Clean([p] + parts) == (if Trim(p) == "" then [] else [Trim(p)]) + Clean(parts)
    ensures Clean([p]) == if Trim(p) == "" then [] else [Trim(p)]
  {
    assert ([p] + parts)[1..] == parts && [p][1..] == [];
  }

  lemma SelectCons(h: Hops, e: string, es: seq<string>, hopOf: string -> string, keepHop: string)
    ensures Select(h, [e] + es, hopOf, keepHop) ==
            (if Stays(h, hopOf(e), keepHop) then [e] else []) + Select(h, es, hopOf, keepHop)
    ensures Select(h, [e], hopOf, keepHop) == if Stays(h, hopOf(e), keepHop) then [e] else []
  {
    assert ([e] + es)[1..] == es && [e][1..] == [];
  }

  lemma NoEntriesInEmpty()
    ensures Entries("") == []
  {
    CleanCons("", []);
    assert Split("", ',') == [""];
  }

  /** What one part of the split value adds to the selection. */
  function PartKept(h: Hops, part: string, hopOf: string -> string, keepHop: string): seq<string> {
    if Trim(part) != "" && Stays(h, hopOf(Trim(part)), keepHop) then [Trim(part)] else []
  }

  /** What the first i parts of the split value add to the selection. */
  function PartsKept(h: Hops, parts: seq<string>, i: nat, hopOf: string -> string, keepHop: string): seq<string>
    requires i <= |parts|
  {
    if i == 0 then [] else PartsKept(h, parts, i - 1, hopOf, keepHop) + PartKept(h, parts[i - 1], hopOf, keepHop)
  }

  lemma PartIsSelected(h: Hops, part: string, hopOf: string -> string, keepHop: string)
    ensures Select(h, Clean([part]), hopOf, keepHop) == PartKept(h, part, hopOf, keepHop)
  {
    CleanCons(part, []);
    if Trim(part) != "" {
      SelectCons(h, Trim(part), [], hopOf, keepHop);
    }
  }

  lemma {:induction false} PartsAreSelected(h: Hops, parts: seq<string>, i: nat, hopOf: string -> string,
                                            keepHop: string)
    requires i <= |parts|
    ensures PartsKept(h, parts, i, hopOf, keepHop) == Select(h, Clean(parts[..i]), hopOf, keepHop)
  {
    if i > 0 {
      PartsAreSelected(h, parts, i - 1, hopOf, keepHop);
      assert parts[..i] == parts[..i - 1] + [parts[i - 1]];
      CleanOfConcat(parts[..i - 1], [parts[i - 1]]);
      SelectOfConcat(h, Clean(parts[..i - 1]), Clean([parts[i - 1]]), hopOf, keepHop);
      PartIsSelected(h, parts[i - 1], hopOf, keepHop);
    }
  }

  lemma AllPartsAreFiltered(h: Hops, value: string, hopOf: string -> string, keepHop: string)
    ensures Join(PartsKept(h, Split(value, ','), |Split(value, ',')|, hopOf, keepHop), ", ")
            == Filtered(h, value, hopOf, keepHop)
    ensures Filtered(h, "", hopOf, keepHop) == ""
  {
    NoEntriesInEmpty();
    var parts := Split(value, ',');
    assert parts[..|parts|] == parts;
    PartsAreSelected(h, parts, |parts|, hopOf, keepHop);
  }

  /** filterRouteValueForHop. hopOf is routeHop. */
  method FilterRouteValueForHop(h: Hops, value: string, hopOf: string -> string, keepHop: string)
    returns (result: string)
    ensures result == Filtered(h, value, hopOf, keepHop)
  {
    AllPartsAreFiltered(h, value, hopOf, keepHop);
    if value == "" {
      return "";
    }
    var parts := Split(value, ',');
    var kept := KeptParts(h, parts, hopOf, keepHop);
    result := Join(kept, ", ");
  }

  /** Its append loop. */
  method KeptParts(h: Hops, parts: seq<string>, hopOf: string -> string, keepHop: string) returns (kept: seq<string>)
    ensures kept == PartsKept(h, parts, |parts|, hopOf, keepHop)
  {
    var publicMarker, privateMarker := PublicMarker(h), PrivateMarker(h);
    kept := [];
    for i := 0 to |parts|
      invariant kept == PartsKept(h, parts, i, hopOf, keepHop)
    {
      var trimmed := Trim(parts[i]);
      if trimmed == "" {
        continue;
      }
      var hop := hopOf(trimmed);
      var isPublic := hop == publicMarker;
      var isPrivate := hop == privateMarker;
      if isPublic || isPrivate {
        if keepHop == "public" {
          if isPublic {
            kept := kept + [trimmed];
          }
        } else if keepHop == "private" {
          if isPrivate {
            kept := kept + [trimmed];
          }
        }
        continue;
      }
      kept := kept + [trimmed];
    }
  }

  /** Exactly our own two addresses go, at their fixed ports, except for the one to keep. */
  lemma StaysIff(h: Hops, hop: string, keepHop: string)
    requires h.publicIP + ":5060" != h.privateIP + ":5065"
    ensures Stays(h, hop, keepHop) <==>
              || (hop != h.publicIP + ":5060" && hop != h.privateIP + ":5065")
              || (keepHop == "public" && hop == h.publicIP + ":5060")
              || (keepHop == "private" && hop == h.privateIP + ":5065")
  {
  }

  // ---------------------------------------------------------------------
  // Splitting and joining route sets
  // ---------------------------------------------------------------------

  /** An entry as Entries yields it. */
  predicate Entry(e: string) { e != "" && Trimmed(e) && ',' !in e }

  predicate AllEntry(es: seq<string>) { forall i :: 0 <= i < |es| ==> Entry(es[i]) }

  lemma CleanOfConcat(a: seq<string>, b: seq<string>)
    ensures Clean(a + b) == Clean(a) + Clean(b)
  {
    if a == [] {
      assert a + b == b;
    } else {
      assert (a + b)[1..] == a[1..] + b;
      CleanOfConcat(a[1..], b);
    }
  }

  lemma CleanYieldsEntries(parts: seq<string>)
    requires forall p :: p in parts ==> ',' !in p
    ensures AllEntry(Clean(parts))
  {
    if parts != [] {
      TrimIsTrimmed(parts[0]);
      CleanYieldsEntries(parts[1..]);
    }
  }

  lemma EntriesAreEntries(value: string)
    ensures AllEntry(Entries(value))
  {
    PartsHaveNoSeparator(value, ',');
    CleanYieldsEntries(Split(value, ','));
  }

  lemma {:induction false} SplitOfConcat(a: string, b: string, s: string)
    requires s == a + [','] + b
    ensures Split(s, ',') == Split(a, ',') + Split(b, ',')
    decreases |a|
  {
    var i := IndexOf(a, ',');
    if i < 0 {
      SplitAtFirst(a, ',', b);
    } else {
      FirstComma(a, b, s, i);
      SplitOff(s, i);
      SplitOff(a, i);
      SplitOfConcat(a[i + 1..], b, s[i + 1..]);
      ConsAppend(a[..i], Split(a[i + 1..], ','), Split(b, ','));
    }
  }

  lemma SplitOff(s: string, i: nat)
    requires IndexOf(s, ',') == i
    ensures Split(s, ',') == [s[..i]] + Split(s[i + 1..], ',')
  {
  }

  lemma ConsAppend(x: string, p: seq<string>, q: seq<string>)
    ensures [x] + (p + q) == ([x] + p) + q
  {
  }

  lemma FirstComma(a: string, b: string, s: string, i: nat)
    requires s == a + [','] + b && i == IndexOf(a, ',')
    ensures IndexOf(s, ',') == i && s[..i] == a[..i] && s[i + 1..] == a[i + 1..] + [','] + b
  {
    assert s[..i] == a[..i];
    IndexOfIsFirst(s, ',', i);
  }

  /** Two header values joined by a comma carry the entries of both. */
  lemma EntriesOfConcat(a: string, b: string)
    ensures Entries(a + "," + b) == Entries(a) + Entries(b)
  {
    SplitOfConcat(a, b, a + "," + b);
    CleanOfConcat(Split(a, ','), Split(b, ','));
  }

  lemma EntriesSkipSpace(s: string)
    ensures Entries(" " + s) == Entries(s)
  {
    var i := IndexOf(s, ',');
    if i < 0 {
      SplitWithout(" " + s, ',');
      SplitWithout(s, ',');
      TrimSkipsSpace(' ', s);
      CleanCons(" " + s, []);
      CleanCons(s, []);
    } else {
      var a, b := s[..i], s[i + 1..];
      assert s == a + [','] + b && " " + s == (" " + a) + [','] + b;
      SplitAtFirst(a, ',', b);
      SplitAtFirst(" " + a, ',', b);
      TrimSkipsSpace(' ', a);
      CleanCons(a, Split(b, ','));
      CleanCons(" " + a, Split(b, ','));
    }
  }

  lemma EntriesOfEntry(e: string)
    requires Entry(e)
    ensures Entries(e) == [e]
  {
    SplitWithout(e, ',');
    TrimOfTrimmed(e);
    CleanCons(e, []);
  }

  lemma EntryThenRest(e: string, rest: string)
    requires Entry(e)
    ensures Entries(e + ", " + rest) == [e] + Entries(rest)
  {
    assert e + ", " + rest == e + "," + (" " + rest);
    EntriesOfConcat(e, " " + rest);
    EntriesOfEntry(e);
    EntriesSkipSpace(rest);
  }

  /** Joining entries and splitting again gives them back. */
  lemma {:induction false} EntriesOfJoin(es: seq<string>)
    requires AllEntry(es)
    ensures Entries(Join(es, ", ")) == es
  {
    NoEntriesInEmpty();
    if |es| == 1 {
      EntriesOfEntry(es[0]);
    } else if |es| > 1 {
      EntryThenRest(es[0], Join(es[1..], ", "));
      EntriesOfJoin(es[1..]);
    }
  }

  lemma SelectOfConcat(h: Hops, a: seq<string>, b: seq<string>, hopOf: string -> string, keepHop: string)
    ensures Select(h, a + b, hopOf, keepHop) == Select(h, a, hopOf, keepHop) + Select(h, b, hopOf, keepHop)
  {
    if a == [] {
      assert a + b == b;
    } else {
      assert (a + b)[1..] == a[1..] + b;
      SelectOfConcat(h, a[1..], b, hopOf, keepHop);
    }
  }

  lemma SelectStays(h: Hops, es: seq<string>, hopOf: string -> string, keepHop: string)
    ensures forall e :: e in Select(h, es, hopOf, keepHop) <==> e in es && Stays(h, hopOf(e), keepHop)
    ensures AllEntry(es) ==> AllEntry(Select(h, es, hopOf, keepHop))
  {
  }

  lemma SelectAll(h: Hops, es: seq<string>, hopOf: string -> string, keepHop: string)
    requires forall e :: e in es ==> Stays(h, hopOf(e), keepHop)
    ensures Select(h, es, hopOf, keepHop) == es
  {
  }

  /** The entries selected are those at an increasing list of positions: all the
      positions of entries that stay, and no other. */
  lemma SelectIsSubsequence(h: Hops, es: seq<string>, hopOf: string -> string, keepHop: string) returns (at: seq<nat>)
    ensures forall i :: 0 <= i < |at| ==> at[i] < |es|
    ensures forall i, j :: 0 <= i < j < |at| ==> at[i] < at[j]
    ensures forall k: nat :: k in at <==> k < |es| && Stays(h, hopOf(es[k]), keepHop)
    ensures Select(h, es, hopOf, keepHop) == seq(|at|, i requires 0 <= i < |at| => es[at[i]])
  {
    if es == [] {
      at := [];
    } else {
      var n := |es| - 1;
      var before := SelectIsSubsequence(h, es[..n], hopOf, keepHop);
      assert es == es[..n] + [es[n]];
      SelectOfConcat(h, es[..n], [es[n]], hopOf, keepHop);
      assert [es[n]][1..] == [];
      at := before + if Stays(h, hopOf(es[n]), keepHop) then [n] else [];
    }
  }

  /** Filtering a header value, read entry by entry, is selection: the foreign
      entries, and the kept hop, in order. */
  lemma FilterSelects(h: Hops, value: string, hopOf: string -> string, keepHop: string)
    ensures Entries(Filtered(h, value, hopOf, keepHop)) == Select(h, Entries(value), hopOf, keepHop)
  {
    EntriesAreEntries(value);
    SelectStays(h, Entries(value), hopOf, keepHop);
    EntriesOfJoin(Select(h, Entries(value), hopOf, keepHop));
  }

  /** Filtering twice is filtering once, text for text. */
  lemma FilterIsIdempotent(h: Hops, value: string, hopOf: string -> string, keepHop: string)
    ensures Filtered(h, Filtered(h, value, hopOf, keepHop), hopOf, keepHop) == Filtered(h, value, hopOf, keepHop)
  {
    FilterSelects(h, value, hopOf, keepHop);
    SelectStays(h, Entries(value), hopOf, keepHop);
    SelectAll(h, Select(h, Entries(value), hopOf, keepHop), hopOf, keepHop);
  }

  // ---------------------------------------------------------------------
  // Several Route headers
  // ---------------------------------------------------------------------

  /** The Route headers of the forwarded request: one per header left non-empty. */
  function FilteredHeaders(h: Hops, hs: seq<string>, hopOf: string -> string, keepHop: string): seq<string> {
    if hs == [] then []
    else
      var v := Filtered(h, hs[0], hopOf, keepHop);
      (if v != "" then [v] else []) + FilteredHeaders(h, hs[1..], hopOf, keepHop)
  }

  function AllEntries(hs: seq<string>): seq<string> {
    if hs == [] then [] else Entries(hs[0]) + AllEntries(hs[1..])
  }

  lemma AllEntriesOfConcat(a: seq<string>, b: seq<string>)
    ensures AllEntries(a + b) == AllEntries(a) + AllEntries(b)
  {
    if a == [] {
      assert a + b == b;
    } else {
      assert (a + b)[1..] == a[1..] + b;
      AllEntriesOfConcat(a[1..], b);
    }
  }

  lemma AllEntriesCons(v: string, hs: seq<string>)
    ensures AllEntries((if v != "" then [v] else []) + hs) == Entries(v) + AllEntries(hs)
  {
    NoEntriesInEmpty();
    assert ([v] + hs)[1..] == hs;
    assert [] + hs == hs;
  }

  /** Filtering header by header selects from the whole route set. */
  lemma {:induction false} HeadersFilterTogether(h: Hops, hs: seq<string>, hopOf: string -> string, keepHop: string)
    ensures AllEntries(FilteredHeaders(h, hs, hopOf, keepHop)) == Select(h, AllEntries(hs), hopOf, keepHop)
  {
    if hs != [] {
      HeadersFilterTogether(h, hs[1..], hopOf, keepHop);
      AllEntriesCons(Filtered(h, hs[0], hopOf, keepHop), FilteredHeaders(h, hs[1..], hopOf, keepHop));
      FilterSelects(h, hs[0], hopOf, keepHop);
      SelectOfConcat(h, Entries(hs[0]), AllEntries(hs[1..]), hopOf, keepHop);
    }
  }

  lemma EntriesOfJoinedHeaders(hs: seq<string>)
    ensures Entries(Join(hs, ",")) == AllEntries(hs)
  {
    NoEntriesInEmpty();
    if |hs| == 1 {
      assert AllEntries(hs[1..]) == [];
    } else if |hs| > 1 {
      EntriesOfConcat(hs[0], Join(hs[1..], ","));
      EntriesOfJoinedHeaders(hs[1..]);
    }
  }

  /** So it does not matter whether the route set came in one header or in several. */
  lemma {:induction false} SeparateOrJoinedHeaders(h: Hops, hs: seq<string>, hopOf: string -> string, keepHop: string)
    ensures AllEntries(FilteredHeaders(h, hs, hopOf, keepHop)) == Entries(Filtered(h, Join(hs, ","), hopOf, keepHop))
  {
    HeadersFilterTogether(h, hs, hopOf, keepHop);
    EntriesOfJoinedHeaders(hs);
    FilterSelects(h, Join(hs, ","), hopOf, keepHop);
  }

  // ---------------------------------------------------------------------
  // Our own Record-Route
  // ---------------------------------------------------------------------

  /** net.JoinHostPort brackets a host with a ':' or a '%'. */
  function JoinHostPort(host: string, port: nat): string {
    if ':' in host || '%' in host then "[" + host + "]:" + Itoa(port) else host + ":" + Itoa(port)
  }

  datatype Uri = Uri(host: string, port: nat)

  /** The URI of a route entry, taken out of its angle brackets. */
  function UriText(s: string): string {
    var i := IndexOf(s, '<');
    if i < 0 then s
    else
      var after := s[i + 1..];
      var j := IndexOf(after, '>');
      if j < 0 then after else after[..j]
  }

  /** routeHop, given how sip.ParseUri reads a URI. */
  function RouteHop(entry: string, parse: string -> Option<Uri>): string {
    var uri := parse(UriText(Trim(entry)));
    if uri.None? then "" else JoinHostPort(uri.value.host, if uri.value.port == 0 then 5060 else uri.value.port)
  }

  /** The hop of an entry is its URI's host and port, 5060 without one; the host is in square brackets if it
      holds a ':' or a '%'. An entry that does not parse has none. */
  lemma RouteHopIs(before: string, uri: string, after: string, parse: string -> Option<Uri>)
    requires '<' !in before && '<' !in uri && '>' !in uri && Trimmed(before + "<" + uri + ">" + after)
    ensures var hop := RouteHop(before + "<" + uri + ">" + after, parse);
            && (parse(uri).None? ==> hop == "")
            && (parse(uri).Some? && ':' !in parse(uri).value.host && '%' !in parse(uri).value.host ==>
                  hop == parse(uri).value.host + ":"
                         + if parse(uri).value.port == 0 then "5060" else Itoa(parse(uri).value.port))
            && (parse(uri).Some? && (':' in parse(uri).value.host || '%' in parse(uri).value.host) ==>
                  hop == "[" + parse(uri).value.host + "]:"
                         + if parse(uri).value.port == 0 then "5060" else Itoa(parse(uri).value.port))
  {
    BracketedUriText(before, uri, after);
    MarkerPorts();
  }

  lemma BracketedUriText(before: string, uri: string, after: string)
    requires '<' !in before && '<' !in uri && '>' !in uri && Trimmed(before + "<" + uri + ">" + after)
    ensures var s := before + "<" + uri + ">" + after; Trim(s) == s && UriText(s) == uri
  {
    var s := before + "<" + uri + ">" + after;
    TrimOfTrimmed(s);
    assert s[..|before|] == before && s[|before|] == '<';
    IndexOfIsFirst(s, '<', |before|);
    var rest := uri + ">" + after;
    assert s[|before| + 1..] == rest && rest[..|uri|] == uri;
    IndexOfIsFirst(rest, '>', |uri|);
  }

  function RouteUri(ip: string, port: nat): string { "sip:" + ip + ":" + Itoa(port) + ";lr" }

  /** One Record-Route header of addRecordRoute. */
  function RecordRoute(ip: string, port: nat): string { "<" + RouteUri(ip, port) + ">" }

  /** An address that is printed and parsed as it stands: an IPv4 address or a host name. */
  predicate PlainHost(ip: string) {
    forall c :: c in ip ==> c != ':' && c != '%' && c != '<' && c != '>' && c != ','
  }

  /** sip.ParseUri reads back the URI we print for this address and port. */
  predicate ReadsBack(parse: string -> Option<Uri>, ip: string, port: nat) {
    parse(RouteUri(ip, port)) == Some(Uri(ip, port))
  }

  lemma ItoaHasNo(n: nat, c: char)
    requires !IsDigit(c)
    ensures c !in Itoa(n)
  {
    ItoaDigits(n);
  }

  lemma RouteUriHasNo(ip: string, port: nat, c: char)
    requires PlainHost(ip) && (c == '<' || c == '>' || c == ',')
    ensures c !in RouteUri(ip, port)
  {
    ItoaHasNo(port, c);
  }

  lemma RecordRouteEntry(ip: string, port: nat, parse: string -> Option<Uri>)
    requires PlainHost(ip) && port > 0 && ReadsBack(parse, ip, port)
    ensures Entries(RecordRoute(ip, port)) == [RecordRoute(ip, port)]
    ensures RouteHop(RecordRoute(ip, port), parse) == ip + ":" + Itoa(port)
  {
    var uri := RouteUri(ip, port);
    RouteUriHasNo(ip, port, '<');
    RouteUriHasNo(ip, port, '>');
    RouteUriHasNo(ip, port, ',');
    Bracketed(uri);
    EntriesOfEntry("<" + uri + ">");
  }

  lemma Bracketed(uri: string)
    requires '<' !in uri && '>' !in uri && ',' !in uri
    ensures var s := "<" + uri + ">"; Entry(s) && Trim(s) == s && UriText(s) == uri
  {
    var s := "<" + uri + ">";
    TrimOfTrimmed(s);
    IndexOfIsFirst(s, '<', 0);
    assert s[1..] == uri + ">" && (uri + ">")[..|uri|] == uri;
    IndexOfIsFirst(uri + ">", '>', |uri|);
  }

  lemma SameAddressSamePort(ip: string, port: nat, ip': string, port': nat)
    requires PlainHost(ip) && PlainHost(ip')
    ensures ip + ":" + Itoa(port) == ip' + ":" + Itoa(port') <==> ip == ip' && port == port'
  {
    var a, b := ip + ":" + Itoa(port), ip' + ":" + Itoa(port');
    assert a[..|ip|] == ip && b[..|ip'|] == ip' && a[|ip| + 1..] == Itoa(port) && b[|ip'| + 1..] == Itoa(port');
    IndexOfIsFirst(a, ':', |ip|);
    IndexOfIsFirst(b, ':', |ip'|);
    ItoaDigits(port);
    ItoaDigits(port');
  }

  lemma MarkerPorts()
    ensures Itoa(5060) == "5060" && Itoa(5065) == "5065"
  {
    assert Itoa(5) == "5" && Itoa(50) == "50" && Itoa(506) == "506";
  }

  lemma HopIsOwnIff(h: Hops, ip: string, port: nat)
    requires PlainHost(h.publicIP) && PlainHost(h.privateIP) && PlainHost(ip)
    ensures Stays(h, ip + ":" + Itoa(port), "") <==>
            !((ip == h.publicIP && port == 5060) || (ip == h.privateIP && port == 5065))
  {
    MarkerPorts();
    SameAddressSamePort(ip, port, h.publicIP, 5060);
    SameAddressSamePort(ip, port, h.privateIP, 5065);
    assert PublicMarker(h) == h.publicIP + ":" + Itoa(5060) && PrivateMarker(h) == h.privateIP + ":" + Itoa(5065);
  }

  lemma OneEntryFiltered(h: Hops, e: string, hopOf: string -> string)
    requires Entries(e) == [e] && e != ""
    ensures Filtered(h, e, hopOf, "") == if Stays(h, hopOf(e), "") then e else ""
  {
    SelectCons(h, e, [], hopOf, "");
  }

  /** One of our Record-Route entries is stripped exactly when it names the public
      address with port 5060 or the private one with port 5065: the filter's ports
      are fixed, whatever ports are configured. */
  lemma OwnRouteStrippedIff(h: Hops, ip: string, port: nat, parse: string -> Option<Uri>)
    requires PlainHost(h.publicIP) && PlainHost(h.privateIP) && PlainHost(ip) && port > 0 && ReadsBack(parse, ip, port)
    ensures Filtered(h, RecordRoute(ip, port), (e: string) => RouteHop(e, parse), "") == ""
            <==> (ip == h.publicIP && port == 5060) || (ip == h.privateIP && port == 5065)
  {
    var hopOf := (e: string) => RouteHop(e, parse);
    RecordRouteEntry(ip, port, parse);
    OneEntryFiltered(h, RecordRoute(ip, port), hopOf);
    HopIsOwnIff(h, ip, port);
  }

  /** addRecordRoute puts our two headers in front, the outgoing interface first. */
  function WithRecordRoute(h: Hops, hs: seq<string>, toFS: bool): seq<string> {
    var pub, priv := RecordRoute(h.publicIP, h.publicPort), RecordRoute(h.privateIP, h.privatePort);
    (if toFS then [priv, pub] else [pub, priv]) + hs
  }

  /** What a Record-Route header of ours says; lr marks a loose router (section 19.1.1 of RFC 3261). */
  lemma RecordRouteText(ip: string, port: nat)
    ensures RecordRoute(ip, port) == "<sip:" + (ip + ":" + Itoa(port)) + ";lr>"
  {
    var uri, address := RouteUri(ip, port), ip + ":" + Itoa(port);
    assert uri == "sip:" + address + ";lr";
    assert "<" + "sip:" == "<sip:" && ";lr" + ">" == ";lr>";
    assert "<" + ("sip:" + address + ";lr") + ">" == ("<" + "sip:") + address + (";lr" + ">");
  }

  /** addRecordRoute's order: the first header names the interface the request leaves by, the private one
      towards FreeSWITCH, the second the one it came in by; those of the request follow. */
  lemma OutgoingInterfaceFirst(h: Hops, hs: seq<string>, toFS: bool, parse: string -> Option<Uri>)
    requires PlainHost(h.publicIP) && PlainHost(h.privateIP) && h.publicPort > 0 && h.privatePort > 0
    requires ReadsBack(parse, h.publicIP, h.publicPort) && ReadsBack(parse, h.privateIP, h.privatePort)
    ensures var rr := WithRecordRoute(h, hs, toFS);
            var pub, priv := h.publicIP + ":" + Itoa(h.publicPort), h.privateIP + ":" + Itoa(h.privatePort);
            && |rr| == |hs| + 2 && rr[2..] == hs
            && RouteHop(rr[0], parse) == (if toFS then priv else pub)
            && RouteHop(rr[1], parse) == (if toFS then pub else priv)
  {
    RecordRouteEntry(h.publicIP, h.publicPort, parse);
    RecordRouteEntry(h.privateIP, h.privatePort, parse);
  }

  /** The configured addresses are those the filter looks for. */
  predicate LookedFor(h: Hops, ip: string, port: nat) {
    (ip == h.publicIP && port == 5060) || (ip == h.privateIP && port == 5065)
  }

  predicate OwnHopsMatch(h: Hops) {
    LookedFor(h, h.publicIP, h.publicPort) && LookedFor(h, h.privateIP, h.privatePort)
  }

  /** Ports 5060 and 5065; with one address for both interfaces, any choice of the two. */
  lemma OwnHopsMatchIff(h: Hops)
    ensures OwnHopsMatch(h) <==>
              if h.publicIP == h.privateIP then h.publicPort in {5060, 5065} && h.privatePort in {5060, 5065}
              else h.publicPort == 5060 && h.privatePort == 5065
  {
  }

  lemma TwoHeadersFirst(h: Hops, a: string, b: string, hs: seq<string>, hopOf: string -> string)
    ensures FilteredHeaders(h, [a, b] + hs, hopOf, "") ==
            (if Filtered(h, a, hopOf, "") != "" then [Filtered(h, a, hopOf, "")] else [])
            + ((if Filtered(h, b, hopOf, "") != "" then [Filtered(h, b, hopOf, "")] else [])
               + FilteredHeaders(h, hs, hopOf, ""))
  {
    assert ([a, b] + hs)[1..] == [b] + hs && ([b] + hs)[1..] == hs;
  }

  /** A route set that went through us comes back with our two hops gone, every foreign entry in place,
      exactly when the configured addresses are those the filter looks for; foreign entries are those
      that do not send to our own addresses. */
  lemma OwnHopsComeOffIff(h: Hops, hs: seq<string>, toFS: bool, parse: string -> Option<Uri>)
    requires PlainHost(h.publicIP) && PlainHost(h.privateIP) && h.publicPort > 0 && h.privatePort > 0
    requires ReadsBack(parse, h.publicIP, h.publicPort) && ReadsBack(parse, h.privateIP, h.privatePort)
    requires forall e :: e in AllEntries(hs) ==> Stays(h, RouteHop(e, parse), "")
    ensures var hopOf := (e: string) => RouteHop(e, parse);
            var after := FilteredHeaders(h, WithRecordRoute(h, hs, toFS), hopOf, "");
            && (after == FilteredHeaders(h, hs, hopOf, "") <==> OwnHopsMatch(h))
            && (OwnHopsMatch(h) ==> AllEntries(after) == AllEntries(hs))
  {
    var hopOf := (e: string) => RouteHop(e, parse);
    OwnRouteStrippedIff(h, h.publicIP, h.publicPort, parse);
    OwnRouteStrippedIff(h, h.privateIP, h.privatePort, parse);
    var pub, priv := RecordRoute(h.publicIP, h.publicPort), RecordRoute(h.privateIP, h.privatePort);
    TwoHeadersFirst(h, if toFS then priv else pub, if toFS then pub else priv, hs, hopOf);
    assert WithRecordRoute(h, hs, toFS) == [if toFS then priv else pub, if toFS then pub else priv] + hs;
    HeadersFilterTogether(h, hs, hopOf, "");
    SelectAll(h, AllEntries(hs), hopOf, "");
  }
}
