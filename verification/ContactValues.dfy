/** What is read out of a well-formed Contact value, built from its parts: a URI in angle brackets and
    parameters that are flags, name=value pairs or quoted strings. */
module ContactValues {
  import opened Text
  import opened ContactHeader

  datatype Part = Flag(name: string) | Pair(name: string, value: string) | Quoted(name: string, value: string)

  function ValueOf(p: Part): string { if p.Flag? then "" else p.value }

  /** A parameter as a client writes it. */
  function Printed(p: Part): string {
    match p
    case Flag(name) => name
    case Pair(name, value) => name + "=" + value
    case Quoted(name, value) => name + "=" + "\"" + value + "\""
  }

  /** No white space and no separator. */
  predicate Token(s: string) {
    forall i :: 0 <= i < |s| ==> !IsSpace(s[i]) && s[i] !in ['"', ';', '=', '<', '>']
  }

  /** Anything may stand between quotes but a quote and an angle bracket. */
  predicate Proper(p: Part) {
    && p.name != "" && Token(p.name)
    && (p.Pair? ==> Token(p.value))
    && (p.Quoted? ==> '"' !in p.value && '<' !in p.value && '>' !in p.value)
  }

  predicate AllProper(ps: seq<Part>) { forall i :: 0 <= i < |ps| ==> Proper(ps[i]) }

  function AllPrinted(ps: seq<Part>): (texts: seq<string>)
    ensures |texts| == |ps| && forall i :: 0 <= i < |ps| ==> texts[i] == Printed(ps[i])
  {
    seq(|ps|, i requires 0 <= i < |ps| => Printed(ps[i]))
  }

  function ContactOf(uri: string, ps: seq<Part>): string { "<" + uri + ">" + Tail(AllPrinted(ps)) }

  // ---------------------------------------------------------------------
  // One parameter
  // ---------------------------------------------------------------------

  lemma PrintedEnds(p: Part)
    requires Proper(p)
    ensures var s := Printed(p); s != "" && s[0] == p.name[0] && Trimmed(s)
  {
    var s := Printed(p);
    if p.Pair? && p.value != "" {
      assert s[|s| - 1] == p.value[|p.value| - 1];
    }
  }

  lemma TokenIsPlain(s: string)
    requires Token(s)
    ensures '"' !in s && ';' !in s && '=' !in s && Trimmed(s) && Trim(s) == s
  {
    TrimOfTrimmed(s);
  }

  lemma {:induction false} InQuotes(v: string, q: bool)
    requires '"' !in v && q
    ensures Whole(v, q) && EndsQuoted(v, q) == q
    decreases |v|
  {
    if v != "" {
      InQuotes(v[1..], q);
    }
  }

  lemma QuotedIsBalanced(v: string)
    requires '"' !in v
    ensures Whole("\"" + v + "\"", false) && !EndsQuoted("\"" + v + "\"", false)
  {
    InQuotes(v, true);
    QuotingOfConcat("\"" + v, "\"", false);
    QuotingOfConcat("\"", v, false);
    assert "\""[1..] == "";
  }

  lemma PrintedIsBalanced(p: Part)
    requires Proper(p)
    ensures Balanced(Printed(p))
  {
    PrintedEnds(p);
    TokenIsPlain(p.name);
    match p
    case Flag(name) => PlainText(name, false);
    case Pair(name, value) =>
      TokenIsPlain(value);
      PlainText(name + "=" + value, false);
    case Quoted(name, value) =>
      PlainText(name + "=", false);
      QuotedIsBalanced(value);
      QuotingOfConcat(name + "=", "\"" + value + "\"", false);
      assert Printed(p) == name + "=" + ("\"" + value + "\"");
  }

  lemma EqualsAt(s: string, name: string, value: string)
    requires Token(name) && s == name + "=" + value
    ensures IndexOf(s, '=') == |name| && s[..|name|] == name && s[|name| + 1..] == value
  {
    TokenIsPlain(name);
    assert s[..|name|] == name;
    IndexOfIsFirst(s, '=', |name|);
  }

  lemma CutAtEquals(s: string, name: string, value: string)
    requires Token(name) && s == name + "=" + value
    ensures ParamName(s) == name && ParamValue(s) == TrimQuotes(Trim(value))
  {
    EqualsAt(s, name, value);
    TokenIsPlain(name);
  }

  lemma Unquoted(v: string)
    requires '"' !in v
    ensures TrimQuotes(v) == v && TrimQuotes("\"" + v + "\"") == v
  {
    var s := "\"" + v + "\"";
    assert s[1..] == v + "\"";
    if v != "" {
      assert (v + "\"")[0] == v[0];
    }
    assert (v + "\"")[..|v|] == v;
    assert v == "" ==> "\""[1..] == "";
  }

  /** Name and value are what was printed, without the quotes. */
  lemma ParamReads(p: Part)
    requires Proper(p)
    ensures ParamName(Printed(p)) == p.name && ParamValue(Printed(p)) == ValueOf(p)
  {
    TokenIsPlain(p.name);
    match p
    case Flag(name) => TrimOfTrimmed("");
    case Pair(name, value) =>
      CutAtEquals(Printed(p), name, value);
      TokenIsPlain(value);
      Unquoted(value);
    case Quoted(name, value) =>
      assert Printed(p) == name + "=" + ("\"" + value + "\"");
      CutAtEquals(Printed(p), name, "\"" + value + "\"");
      TrimOfTrimmed("\"" + value + "\"");
      Unquoted(value);
  }

  // ---------------------------------------------------------------------
  // The whole value
  // ---------------------------------------------------------------------

  lemma {:induction false} TailReadsAll(ps: seq<string>)
    requires AllBalanced(ps)
    ensures Params(Tail(ps), false, "") == ps
  {
    if ps != [] {
      var front, last := ps[..|ps| - 1], ps[|ps| - 1];
      assert ps == front + [last];
      TailOfConcat(front, [last]);
      assert Tail([last]) == ";" + last && (";" + last)[1..] == last;
      TailReads(front, ";" + last, "");
      LastReads(last);
    }
  }

  lemma TailEnd(ps: seq<string>)
    requires AllBalanced(ps) && ps != []
    ensures Tail(ps)[0] == ';' && !IsSpace(Tail(ps)[|Tail(ps)| - 1])
  {
    var front, last := ps[..|ps| - 1], ps[|ps| - 1];
    assert ps == front + [last];
    TailOfConcat(front, [last]);
    assert Tail([last]) == ";" + last;
    assert Tail(ps)[|Tail(ps)| - 1] == last[|last| - 1];
  }

  lemma Bracketed(uri: string, tail: string)
    requires '<' !in uri && '>' !in uri
    requires tail == "" || (tail[0] == ';' && !IsSpace(tail[|tail| - 1]))
    ensures var s := "<" + uri + ">" + tail;
            && Trim(s) == s && Closed(s) && CutAt(s) == |uri| + 2
            && AddressOf(s) == "<" + uri + ">" && ParamText(s) == tail
  {
    var a := "<" + uri + ">";
    var s := a + tail;
    assert a[1..] == uri + ">" && a[0] == '<' && a[|uri| + 1] == '>' && a[..|uri| + 1][1..] == uri;
    TrimOfTrimmed(a);
    if tail == "" {
      assert s == a;
    } else {
      TailStaysTrimmed(a, tail);
    }
    assert a[0..] == a && s[0..] == s;
    IndexOfIsFirst(a, '<', 0);
    assert '>' !in a[..|uri| + 1];
    IndexOfIsFirst(a, '>', |uri| + 1);
    CutAfterBracket(a, tail, 0);
    assert s[..|a|] == a && s[|a|..] == tail;
  }

  /** The address and the parameters of a well-formed Contact, in order. */
  lemma ContactReads(uri: string, ps: seq<Part>)
    requires '<' !in uri && '>' !in uri && AllProper(ps)
    ensures AddressOf(ContactOf(uri, ps)) == "<" + uri + ">" && ParamsOf(ContactOf(uri, ps)) == AllPrinted(ps)
    ensures Rereadable(ContactOf(uri, ps))
  {
    var texts := AllPrinted(ps);
    forall i | 0 <= i < |texts| ensures Balanced(texts[i]) {
      PrintedIsBalanced(ps[i]);
    }
    if texts != [] {
      TailEnd(texts);
    }
    Bracketed(uri, Tail(texts));
    TailReadsAll(texts);
    TailIsEven(texts);
  }

  /** Without angle brackets all parameters are the header's (section 20.10 of RFC 3261). */
  lemma BareContactReads(uri: string, ps: seq<Part>)
    requires Trimmed(uri) && '<' !in uri && ';' !in uri && AllProper(ps)
    ensures var s := uri + Tail(AllPrinted(ps));
            AddressOf(s) == uri && ParamsOf(s) == AllPrinted(ps)
  {
    var texts := AllPrinted(ps);
    forall i | 0 <= i < |texts| ensures Balanced(texts[i]) && '<' !in texts[i] {
      PrintedIsBalanced(ps[i]);
      PrintedHasNoBracket(ps[i]);
    }
    TrimOfTrimmed(uri);
    if texts == [] {
      assert uri + Tail(texts) == uri;
    } else {
      TailEnd(texts);
      TailHasNoBracket(texts);
      TailStaysTrimmed(uri, Tail(texts));
      CutAfterPlain(uri, Tail(texts));
      assert (uri + Tail(texts))[..|uri|] == uri && (uri + Tail(texts))[|uri|..] == Tail(texts);
    }
    TailReadsAll(texts);
  }

  lemma PrintedHasNoBracket(p: Part)
    requires Proper(p)
    ensures '<' !in Printed(p)
  {
  }

  lemma {:induction false} TailHasNoBracket(ps: seq<string>)
    requires forall i :: 0 <= i < |ps| ==> '<' !in ps[i]
    ensures '<' !in Tail(ps)
  {
    if ps != [] {
      TailHasNoBracket(ps[1..]);
    }
  }

  lemma {:induction false} TailIsEven(ps: seq<string>)
    requires AllBalanced(ps)
    ensures !EndsQuoted(Tail(ps), false)
  {
    if ps != [] {
      TailIsEven(ps[1..]);
      QuotingOfConcat(";" + ps[0], Tail(ps[1..]), false);
      QuotingOfConcat(";", ps[0], false);
      assert ";"[1..] == "";
    }
  }

  // ---------------------------------------------------------------------
  // The lifetime
  // ---------------------------------------------------------------------

  /** "expires", in any case. */
  predicate SaysExpires(name: string) {
    |name| == 7 && forall i :: 0 <= i < 7 ==> name[i] == "expires"[i] || name[i] == "EXPIRES"[i]
  }

  lemma ExpiresInAnyCase(name: string)
    ensures EqualFold(name, "expires") <==> SaysExpires(name)
  {
    if |name| == 7 {
      assert LowerChar('e') == 'e' == LowerChar('E') && LowerChar('x') == 'x' == LowerChar('X');
    }
  }

  lemma IsExpiresReads(p: Part)
    requires Proper(p)
    ensures IsExpires(Printed(p)) <==> SaysExpires(p.name)
  {
    ParamReads(p);
    ExpiresInAnyCase(p.name);
  }

  lemma {:induction false} FirstExpiresReads(ps: seq<Part>, k: int)
    requires AllProper(ps) && 0 <= k <= |ps| && forall j :: 0 <= j < k ==> !SaysExpires(ps[j].name)
    requires k < |ps| ==> SaysExpires(ps[k].name)
    ensures FirstExpires(AllPrinted(ps)) == if k < |ps| then Some(ValueOf(ps[k])) else None
    decreases k
  {
    var texts := AllPrinted(ps);
    if ps != [] {
      assert texts[1..] == AllPrinted(ps[1..]);
      IsExpiresReads(ps[0]);
      ParamReads(ps[0]);
      if k > 0 {
        FirstExpiresReads(ps[1..], k - 1);
      }
    }
  }

  /** The lifetime a well-formed Contact asks for is the value of its first parameter named expires. */
  lemma ExpiresIsRead(uri: string, ps: seq<Part>, k: int)
    requires '<' !in uri && '>' !in uri && AllProper(ps)
    requires 0 <= k <= |ps| && (forall j :: 0 <= j < k ==> !SaysExpires(ps[j].name))
    requires k < |ps| ==> SaysExpires(ps[k].name)
    ensures ExpiresParam(ContactOf(uri, ps)) == if k < |ps| then Some(ValueOf(ps[k])) else None
  {
    ContactReads(uri, ps);
    FirstExpiresReads(ps, k);
  }

  lemma BareExpiresIsRead(uri: string, ps: seq<Part>, k: int)
    requires Trimmed(uri) && '<' !in uri && ';' !in uri && AllProper(ps)
    requires 0 <= k <= |ps| && (forall j :: 0 <= j < k ==> !SaysExpires(ps[j].name))
    requires k < |ps| ==> SaysExpires(ps[k].name)
    ensures ExpiresParam(uri + Tail(AllPrinted(ps))) == if k < |ps| then Some(ValueOf(ps[k])) else None
  {
    BareContactReads(uri, ps);
    FirstExpiresReads(ps, k);
  }

  /** The parameters other than expires, in order. */
  function Others(ps: seq<Part>): seq<Part> {
    if ps == [] then [] else (if SaysExpires(ps[0].name) then [] else [ps[0]]) + Others(ps[1..])
  }

  lemma {:induction false} KeepReads(ps: seq<Part>)
    requires AllProper(ps)
    ensures Keep(AllPrinted(ps)) == AllPrinted(Others(ps))
  {
    if ps != [] {
      IsExpiresReads(ps[0]);
      KeepReads(ps[1..]);
      assert AllPrinted(ps)[1..] == AllPrinted(ps[1..]);
      assert AllPrinted([ps[0]] + Others(ps[1..])) == [Printed(ps[0])] + AllPrinted(Others(ps[1..]));
    }
  }

  /** What is echoed to the client: its own Contact with all parameters named expires replaced by one. */
  lemma GrantIsWritten(uri: string, ps: seq<Part>, e: nat)
    requires '<' !in uri && '>' !in uri && AllProper(ps)
    ensures WithExpires(ContactOf(uri, ps), e) == ContactOf(uri, Others(ps) + [Pair("expires", Itoa(e))])
  {
    var contact, grant := ContactOf(uri, ps), Pair("expires", Itoa(e));
    ContactReads(uri, ps);
    KeepReads(ps);
    WithExpiresIsTail(contact, e);
    GrantPrints(Others(ps), e);
    assert Keep(ParamsOf(contact)) + [Grant(e)] == AllPrinted(Others(ps) + [grant]);
  }

  lemma GrantPrints(ps: seq<Part>, e: nat)
    ensures AllPrinted(ps + [Pair("expires", Itoa(e))]) == AllPrinted(ps) + [Grant(e)]
  {
    assert Printed(Pair("expires", Itoa(e))) == Grant(e);
  }
}
