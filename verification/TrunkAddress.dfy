/** A SIP trunk's outbound contact: what the web form stores, and how the SBC reads it. */
module TrunkAddress {
  import opened Text

  // ---------------------------------------------------------------------
  // The form (schema.ts)
  // ---------------------------------------------------------------------

  datatype Rejection =
    | Blank | Spaces | TlsScheme | UriParameters | UserPart | Ipv6 | OtherScheme | BadHost | BadPort

  datatype Outcome = Accepted(value: string) | Rejected(why: Rejection)

  predicate IsLetter(c: char) { 'a' <= c <= 'z' || 'A' <= c <= 'Z' }

  predicate IsAlnum(c: char) { IsLetter(c) || IsDigit(c) }

  predicate Digits(s: string) { s != "" && AllDigits(s) }

  predicate StartsFold(s: string, prefix: string) {
    |prefix| <= |s| && EqualFold(s[..|prefix|], prefix)
  }

  /** A scheme before the first ':' that is not followed by a port only. */
  predicate SchemeLike(s: string) {
    var i := IndexOf(s, ':');
    && i > 0 && IsLetter(s[0])
    && (forall k :: 0 <= k < i ==> IsAlnum(s[k]) || s[k] == '+' || s[k] == '-')
    && !Digits(s[i + 1..])
  }

  /** An RFC 1123 label. */
  predicate Label(s: string) {
    && 1 <= |s| <= 63 && IsAlnum(s[0]) && IsAlnum(s[|s| - 1])
    && forall k :: 0 <= k < |s| ==> IsAlnum(s[k]) || s[k] == '-'
  }

  predicate Octet(s: string) { 1 <= |s| <= 3 && AllDigits(s) && Value(s) <= 255 }

  predicate ValidHost(host: string) {
    if host != "" && forall k :: 0 <= k < |host| ==> IsDigit(host[k]) || host[k] == '.' then
      var octets := Split(host, '.');
      |octets| == 4 && forall o :: o in octets ==> Octet(o)
    else
      var labels := Split(host, '.');
      && |host| <= 253
      && (forall l :: l in labels ==> Label(l))
      && !Digits(labels[|labels| - 1])
  }

  predicate PortText(s: string) { 1 <= |s| <= 5 && AllDigits(s) && 1 <= Value(s) <= 65535 }

  function StripSip(value: string): string { if StartsFold(value, "sip:") then value[4..] else value }

  /** The address once the scheme is off. */
  function ParseAddress(address: string): Outcome {
    var parts := Split(address, ':');
    if ';' in address then Rejected(UriParameters)
    else if '@' in address then Rejected(UserPart)
    else if '[' in address || |parts| > 2 then Rejected(Ipv6)
    else if SchemeLike(address) then Rejected(OtherScheme)
    else if !ValidHost(parts[0]) then Rejected(BadHost)
    else if |parts| == 1 then Accepted(parts[0])
    else if !PortText(parts[1]) then Rejected(BadPort)
    else Accepted(parts[0] + ":" + Itoa(Value(parts[1])))
  }

  /** normalizeOutboundContact. */
  function Normalize(input: string): Outcome {
    var value := Trim(input);
    if value == "" then Rejected(Blank)
    else if exists k :: 0 <= k < |value| && IsSpace(value[k]) then Rejected(Spaces)
    else if StartsFold(value, "sips:") then Rejected(TlsScheme)
    else ParseAddress(StripSip(value))
  }

  // ---------------------------------------------------------------------
  // The SBC (proxy.go)
  // ---------------------------------------------------------------------

  /** splitHostPort: split at the first ':'; the default port without one, or when it is no number. */
  function SplitHostPort(hostPort: string, defaultPort: int): (string, int) {
    var i := IndexOf(hostPort, ':');
    if i < 0 then (hostPort, defaultPort)
    else
      var port := Atoi(hostPort[i + 1..]);
      (hostPort[..i], if port.Some? then port.value else defaultPort)
  }

  // ---------------------------------------------------------------------
  // Hosts and ports
  // ---------------------------------------------------------------------

  predicate HostChar(c: char) { IsAlnum(c) || c == '-' || c == '.' }

  predicate HostChars(s: string) { forall k :: 0 <= k < |s| ==> HostChar(s[k]) }

  lemma {:induction false} CharsOfParts(s: string, sep: char)
    requires forall p :: p in Split(s, sep) ==> HostChars(p)
    requires HostChar(sep)
    ensures HostChars(s)
    decreases |s|
  {
    var i, parts := IndexOf(s, sep), Split(s, sep);
    if i < 0 {
      assert s == parts[0];
    } else {
      assert parts[0] == s[..i] && parts[1..] == Split(s[i + 1..], sep);
      CharsOfParts(s[i + 1..], sep);
      HostCharsAround(s, i);
    }
  }

  lemma HostCharsAround(s: string, i: nat)
    requires i < |s| && HostChars(s[..i]) && HostChar(s[i]) && HostChars(s[i + 1..])
    ensures HostChars(s)
  {
    forall k | 0 <= k < |s| ensures HostChar(s[k]) {
      assert k < i ==> s[k] == s[..i][k];
      assert k > i ==> s[k] == s[i + 1..][k - i - 1];
    }
  }

  lemma ValidHostChars(host: string)
    requires ValidHost(host)
    ensures host != "" && forall k :: 0 <= k < |host| ==> HostChar(host[k])
  {
    assert host == "" ==> Split(host, '.') == [""] && !Label("");
    if !(forall k :: 0 <= k < |host| ==> IsDigit(host[k]) || host[k] == '.') {
      CharsOfParts(host, '.');
    }
  }

  lemma ItoaLength(n: nat)
    requires n < 65536
    ensures |Itoa(n)| <= 5
  {
    var a := n / 10;
    var b := a / 10;
    var c := b / 10;
    var d := c / 10;
    assert d < 10;
    assert |Itoa(d)| == 1;
    assert |Itoa(c)| <= 2;
    assert |Itoa(b)| <= 3;
    assert |Itoa(a)| <= 4;
  }

  lemma PortIsPortText(p: nat)
    requires 1 <= p <= 65535
    ensures PortText(Itoa(p)) && Value(Itoa(p)) == p && Itoa(p)[0] != '0' && Atoi(Itoa(p)) == Some(p)
  {
    ItoaDigits(p);
    ItoaLength(p);
    AtoiOfItoa(p);
  }

  /** host:port as it is stored. */
  function HostPort(host: string, port: nat): string { host + ":" + Itoa(port) }

  lemma HostPortSplits(host: string, port: nat)
    requires ValidHost(host)
    ensures Split(host, ':') == [host] && IndexOf(host, ':') == -1
    ensures Split(HostPort(host, port), ':') == [host, Itoa(port)] && IndexOf(HostPort(host, port), ':') == |host|
  {
    ValidHostChars(host);
    ItoaDigits(port);
    var hp := HostPort(host, port);
    assert ':' !in host && ':' !in Itoa(port);
    SplitWithout(host, ':');
    SplitAtFirst(host, ':', Itoa(port));
    SplitWithout(Itoa(port), ':');
    assert hp == host + [':'] + Itoa(port) && hp[..|host|] == host;
    IndexOfIsFirst(hp, ':', |host|);
  }

  /** Text of host characters and ':' only: nothing to trim, no parameter, user or bracket. */
  lemma PlainAddress(s: string)
    requires s != "" && forall k :: 0 <= k < |s| ==> HostChar(s[k]) || s[k] == ':'
    ensures Trim(s) == s && ';' !in s && '@' !in s && '[' !in s
    ensures forall k :: 0 <= k < |s| ==> !IsSpace(s[k])
  {
    TrimOfTrimmed(s);
  }

  lemma HostPortIsPlain(host: string, port: nat)
    requires ValidHost(host)
    ensures forall k :: 0 <= k < |host| ==> HostChar(host[k])
    ensures var s := HostPort(host, port); s != "" && forall k :: 0 <= k < |s| ==> HostChar(s[k]) || s[k] == ':'
  {
    ValidHostChars(host);
    ItoaDigits(port);
    var s := HostPort(host, port);
    assert forall k :: 0 <= k < |s| ==>
      if k < |host| then s[k] == host[k] else if k == |host| then s[k] == ':' else s[k] == Itoa(port)[k - |host| - 1];
  }

  /** The scheme off, a valid address is accepted as it stands. */
  lemma ValidAddressParses(host: string, port: nat)
    requires ValidHost(host)
    ensures ParseAddress(host) == Accepted(host)
    ensures 1 <= port <= 65535 ==> ParseAddress(HostPort(host, port)) == Accepted(HostPort(host, port))
  {
    HostPortSplits(host, port);
    HostPortIsPlain(host, port);
    ValidHostChars(host);
    PlainAddress(host);
    PlainAddress(HostPort(host, port));
    if 1 <= port <= 65535 {
      PortIsPortText(port);
      assert HostPort(host, port)[|host| + 1..] == Itoa(port);
    }
  }

  // ---------------------------------------------------------------------
  // What the form accepts, and what the SBC makes of it
  // ---------------------------------------------------------------------

  /** The texts between the dots of a host. */
  predicate Dotted(host: string, parts: seq<string>) {
    parts != [] && host == Join(parts, ".") && forall i :: 0 <= i < |parts| ==> '.' !in parts[i]
  }

  lemma {:induction false} SplitOfJoin(parts: seq<string>)
    requires parts != [] && forall i :: 0 <= i < |parts| ==> '.' !in parts[i]
    ensures Split(Join(parts, "."), '.') == parts
  {
    if |parts| == 1 {
      SplitWithout(parts[0], '.');
    } else {
      var rest := Join(parts[1..], ".");
      SplitOfJoin(parts[1..]);
      SplitAtFirst(parts[0], '.', rest);
      assert Join(parts, ".") == parts[0] + ['.'] + rest;
      assert [parts[0]] + parts[1..] == parts;
    }
  }

  predicate OnlyDigitsAndDots(host: string) { forall k :: 0 <= k < |host| ==> '0' <= host[k] <= '9' || host[k] == '.' }

  /** Digits and dots are a host if they are four numbers up to 255, of one to three digits each. */
  lemma NumericHosts(host: string, parts: seq<string>)
    requires Dotted(host, parts) && host != "" && OnlyDigitsAndDots(host)
    ensures ValidHost(host) <==>
              |parts| == 4 && forall i :: 0 <= i < 4 ==>
                1 <= |parts[i]| <= 3 && AllDigits(parts[i]) && Value(parts[i]) <= 255
  {
    SplitOfJoin(parts);
    if ValidHost(host) {
      forall i | 0 <= i < 4 ensures 1 <= |parts[i]| <= 3 && AllDigits(parts[i]) && Value(parts[i]) <= 255 {
        assert parts[i] in parts && Octet(parts[i]);
      }
    }
  }

  /** Anything else is a host if it is at most 253 characters of labels between dots, each of 1 to 63 letters,
      digits and inner hyphens, the last not all digits. */
  lemma {:induction false} NamedHosts(host: string, parts: seq<string>)
    requires Dotted(host, parts) && !(host != "" && OnlyDigitsAndDots(host))
    ensures ValidHost(host) <==>
              && |host| <= 253
              && (forall i :: 0 <= i < |parts| ==> IsLabel(parts[i]))
              && !AllDigits(parts[|parts| - 1])
  {
    SplitOfJoin(parts);
    NamedHostParts(host, parts);
    if ValidHost(host) {
      AllAreLabels(parts);
    } else if |host| <= 253 && forall i :: 0 <= i < |parts| ==> IsLabel(parts[i]) {
      LabelsSuffice(parts);
    }
  }

  lemma {:induction false} NamedHostParts(host: string, parts: seq<string>)
    requires parts == Split(host, '.') && !(host != "" && OnlyDigitsAndDots(host))
    ensures ValidHost(host) <==>
              |host| <= 253 && (forall l :: l in parts ==> Label(l)) && !Digits(parts[|parts| - 1])
  {
  }

  lemma AllAreLabels(parts: seq<string>)
    requires parts != [] && forall l :: l in parts ==> Label(l)
    ensures forall i :: 0 <= i < |parts| ==> IsLabel(parts[i])
    ensures parts[|parts| - 1] != ""
  {
    forall i | 0 <= i < |parts| ensures IsLabel(parts[i]) {
      assert parts[i] in parts;
      LabelsAre(parts[i]);
    }
  }

  lemma LabelsSuffice(parts: seq<string>)
    requires parts != [] && forall i :: 0 <= i < |parts| ==> IsLabel(parts[i])
    ensures forall l :: l in parts ==> Label(l)
    ensures parts[|parts| - 1] != ""
  {
    forall l | l in parts ensures Label(l) {
      LabelsAre(l);
    }
  }

  /** Every text is dotted in one way. */
  lemma EveryTextIsDotted(host: string)
    ensures Dotted(host, Split(host, '.'))
  {
    JoinOfSplit(host, '.');
    PartsHaveNoSeparator(host, '.');
  }

  predicate LetterOrDigit(c: char) { 'a' <= c <= 'z' || 'A' <= c <= 'Z' || '0' <= c <= '9' }

  predicate IsLabel(s: string) {
    && 1 <= |s| <= 63 && s[0] != '-' && s[|s| - 1] != '-'
    && forall k :: 0 <= k < |s| ==> LetterOrDigit(s[k]) || s[k] == '-'
  }

  lemma LabelsAre(s: string)
    ensures Label(s) <==> IsLabel(s)
  {
  }

  predicate IsHostPort(v: string, host: string, port: nat) {
    ValidHost(host) && 1 <= port <= 65535 && v == HostPort(host, port)
  }

  /** A bare host, or host:port in decimal without leading zeros. */
  ghost predicate IsAddress(v: string) {
    ValidHost(v) || exists host, port: nat :: IsHostPort(v, host, port)
  }

  lemma SplitLength(s: string, sep: char)
    ensures |Split(s, sep)| == 1 ==> Split(s, sep) == [s] && sep !in s
    ensures |Split(s, sep)| == 2 ==> s == Split(s, sep)[0] + [sep] + Split(s, sep)[1]
  {
    var i := IndexOf(s, sep);
    if i >= 0 {
      assert s == s[..i] + [sep] + s[i + 1..];
      if |Split(s, sep)| == 2 {
        assert |Split(s[i + 1..], sep)| == 1;
        SplitLength(s[i + 1..], sep);
      }
    }
  }

  lemma ParsedIsAddress(address: string)
    requires ParseAddress(address).Accepted?
    ensures IsAddress(ParseAddress(address).value)
  {
    var parts := Split(address, ':');
    SplitLength(address, ':');
    if |parts| == 2 {
      assert IsHostPort(ParseAddress(address).value, parts[0], Value(parts[1]));
    }
  }

  /** Only host characters and ':'. */
  predicate Plain(s: string) { s != "" && forall k :: 0 <= k < |s| ==> HostChar(s[k]) || s[k] == ':' }

  lemma AddressParses(v: string)
    requires IsAddress(v)
    ensures Plain(v) && ParseAddress(v) == Accepted(v)
  {
    if ValidHost(v) {
      ValidHostChars(v);
      ValidAddressParses(v, 0);
    } else {
      var host, port: nat :| IsHostPort(v, host, port);
      HostPortIsPlain(host, port);
      ValidAddressParses(host, port);
    }
  }

  lemma NormalizePlain(s: string)
    requires Plain(s)
    ensures Normalize(s) == if StartsFold(s, "sips:") then Rejected(TlsScheme) else ParseAddress(StripSip(s))
  {
    PlainAddress(s);
  }

  lemma SipPrefix(v: string)
    requires Plain(v)
    ensures Plain("sip:" + v) && StripSip("sip:" + v) == v && !StartsFold("sip:" + v, "sips:")
  {
    var s := "sip:" + v;
    assert s[..4] == "sip:" && s[4..] == v;
    assert forall k :: 0 <= k < |s| ==> if k < 4 then s[k] == "sip:"[k] else s[k] == v[k - 4];
    assert |s| >= 5 ==> s[..5][3] == ':';
  }

  /** The "sip:" form of an address is accepted, and stored without the prefix. */
  lemma SchemeIsDropped(v: string)
    requires IsAddress(v)
    ensures Normalize("sip:" + v) == Accepted(v)
  {
    AddressParses(v);
    SipPrefix(v);
    NormalizePlain("sip:" + v);
  }

  /** The values the form can store are exactly the addresses. */
  lemma AcceptedValuesAreAddresses(v: string)
    ensures (exists input :: Normalize(input) == Accepted(v)) <==> IsAddress(v)
  {
    if input :| Normalize(input) == Accepted(v) {
      ParsedIsAddress(StripSip(Trim(input)));
    }
    if IsAddress(v) {
      SchemeIsDropped(v);
    }
  }

  /** The SBC splits a stored value into the host and the port that were entered. */
  lemma SbcReadsBack(v: string, host: string, port: nat)
    ensures ValidHost(v) ==> SplitHostPort(v, 5060) == (v, 5060)
    ensures IsHostPort(v, host, port) ==>
              SplitHostPort(v, 5060) == (host, port) && v[|host| + 1] != '0' && !ValidHost(v)
  {
    if ValidHost(v) {
      HostPortSplits(v, 0);
    }
    if IsHostPort(v, host, port) {
      PortReadsBack(host, port);
    }
  }

  lemma PortReadsBack(host: string, port: nat)
    requires ValidHost(host) && 1 <= port <= 65535
    ensures var v := HostPort(host, port);
            SplitHostPort(v, 5060) == (host, port) && v[|host| + 1] != '0' && IndexOf(v, ':') >= 0
  {
    var v := HostPort(host, port);
    HostPortSplits(host, port);
    PortIsPortText(port);
    assert v[|host| + 1..] == Itoa(port) && v[..|host|] == host;
  }

  /** A host whose name is the scheme's: "sip:5060" reads as a scheme and its address. */
  predicate SchemeName(v: string) {
    var host := SplitHostPort(v, 5060).0;
    host != v && (EqualFold(host, "sip") || EqualFold(host, "sips"))
  }

  lemma PrefixFold(host: string, rest: string, name: string)
    requires ':' !in host && ':' !in name
    ensures StartsFold(host + ":" + rest, name + ":") <==> EqualFold(host, name)
  {
    var s := host + ":" + rest;
    var p := name + ":";
    if StartsFold(s, p) {
      forall i | 0 <= i < |p| ensures LowerChar(s[i]) == LowerChar(p[i]) {
        assert s[..|p|][i] == s[i];
      }
      assert s[|name|] == ':' && s[|host|] == ':';
      forall i | 0 <= i < |host| ensures LowerChar(host[i]) == LowerChar(name[i]) {
        assert s[..|p|][i] == host[i] && p[i] == name[i];
      }
    }
    if EqualFold(host, name) {
      assert s[..|p|] == host + ":";
    }
  }

  lemma NoColonNoPrefix(host: string, p: string)
    requires ':' !in host && p != "" && p[|p| - 1] == ':'
    ensures !StartsFold(host, p)
  {
    var k := |p| - 1;
    assert |p| <= |host| ==> host[..|p|][k] == host[k] && host[k] != ':';
  }

  /** Digits alone are no host. */
  lemma BareDigitsAreNoHost(p: string)
    requires Digits(p)
    ensures ParseAddress(p) == Rejected(BadHost)
  {
    assert ':' !in p && '.' !in p;
    SplitWithout(p, ':');
    SplitWithout(p, '.');
  }

  /**
   * Normalizing a stored value changes nothing, except for a host named sip or sips with a
   * port: its own name is then taken for the scheme, and the value is refused.
   */
  lemma {:induction false} NormalizeTwice(v: string)
    requires IsAddress(v)
    ensures Normalize(v) == Accepted(v) <==> !SchemeName(v)
    ensures var sip := EqualFold(SplitHostPort(v, 5060).0, "sip");
            SchemeName(v) ==> Normalize(v) == Rejected(if sip then BadHost else TlsScheme)
  {
    if ValidHost(v) {
      ValidHostChars(v);
      PlainAddress(v);
      ValidAddressParses(v, 0);
      SbcReadsBack(v, "", 0);
      NoColonNoPrefix(v, "sips:");
      NoColonNoPrefix(v, "sip:");
    } else {
      var host, port: nat :| IsHostPort(v, host, port);
      HostWithPortTwice(v, host, port);
    }
  }

  lemma HostWithPortTwice(v: string, host: string, port: nat)
    requires IsHostPort(v, host, port)
    ensures Normalize(v) == Accepted(v) <==> !SchemeName(v)
    ensures SchemeName(v) ==> Normalize(v) == Rejected(if EqualFold(host, "sip") then BadHost else TlsScheme)
    ensures SplitHostPort(v, 5060) == (host, port)
  {
    HostPortIsPlain(host, port);
    NormalizePlain(v);
    SbcReadsBack(v, host, port);
    NamedAsScheme(host, port);
    if EqualFold(host, "sip") {
      ItoaDigits(port);
      BareDigitsAreNoHost(Itoa(port));
    } else {
      ValidAddressParses(host, port);
    }
  }

  lemma NamedAsScheme(host: string, port: nat)
    requires ValidHost(host)
    ensures var v := HostPort(host, port);
            && (StartsFold(v, "sip:") <==> EqualFold(host, "sip"))
            && (StartsFold(v, "sips:") <==> EqualFold(host, "sips"))
            && (EqualFold(host, "sip") ==> StripSip(v) == Itoa(port))
  {
    ValidHostChars(host);
    PrefixFold(host, Itoa(port), "sip");
    PrefixFold(host, Itoa(port), "sips");
    assert "sip" + ":" == "sip:" && "sips" + ":" == "sips:";
    assert |host| == 3 ==> HostPort(host, port)[4..] == Itoa(port);
  }

  lemma ReachesTheSchemeTest(name: string, rest: string)
    requires ':' !in name + rest && ';' !in name + rest && '@' !in name + rest && '[' !in name + rest
    ensures var address := name + [':'] + rest;
            ParseAddress(address) == Rejected(OtherScheme) <==> SchemeLike(address)
  {
    var address := name + [':'] + rest;
    assert forall c :: c in address ==> c in name + rest || c == ':';
    assert forall c :: c in name || c in rest ==> c in name + rest;
    SplitAtFirst(name, ':', rest);
    SplitWithout(rest, ':');
  }

  lemma {:induction false} SchemeLikeIff(name: string, rest: string)
    requires ':' !in name
    ensures SchemeLike(name + [':'] + rest) <==>
              && name != "" && IsLetter(name[0])
              && (forall k :: 0 <= k < |name| ==> IsAlnum(name[k]) || name[k] == '+' || name[k] == '-')
              && !Digits(rest)
  {
    var address := name + [':'] + rest;
    assert address[..|name|] == name && address[|name| + 1..] == rest;
    IndexOfIsFirst(address, ':', |name|);
    assert forall k :: 0 <= k < |name| ==> address[k] == name[k];
  }

  /** With one colon and none of the characters refused before, an address is refused for its scheme iff a
      scheme's characters stand before the colon and something other than digits after it. */
  lemma {:induction false} OtherSchemeIsRefusedIff(name: string, rest: string)
    requires ':' !in name + rest && ';' !in name + rest && '@' !in name + rest && '[' !in name + rest
    ensures ParseAddress(name + [':'] + rest) == Rejected(OtherScheme) <==>
              && name != "" && ('a' <= name[0] <= 'z' || 'A' <= name[0] <= 'Z')
              && (forall k :: 0 <= k < |name| ==>
                    'a' <= name[k] <= 'z' || 'A' <= name[k] <= 'Z' || '0' <= name[k] <= '9' || name[k] in ['+', '-'])
              && (rest == "" || exists k :: 0 <= k < |rest| && !('0' <= rest[k] <= '9'))
  {
    ReachesTheSchemeTest(name, rest);
    assert forall c :: c in name ==> c in name + rest;
    SchemeLikeIff(name, rest);
  }

  /** The exception is met: "sip:sip:5060" is stored as "sip:5060", which the form then refuses. */
  lemma HostNamedSip(port: nat)
    requires 1 <= port <= 65535
    ensures Normalize("sip:" + HostPort("sip", port)) == Accepted(HostPort("sip", port))
    ensures Normalize(HostPort("sip", port)) == Rejected(BadHost)
  {
    SipIsAHost();
    var v := HostPort("sip", port);
    assert IsHostPort(v, "sip", port);
    SchemeIsDropped(v);
    HostWithPortTwice(v, "sip", port);
  }

  lemma SipIsAHost()
    ensures ValidHost("sip")
  {
    SplitWithout("sip", '.');
    assert "sip"[0] == 's' && "sip"[2] == 'p';
    assert Label("sip");
    assert !Digits("sip") by { assert !IsDigit("sip"[0]); }
  }
}
