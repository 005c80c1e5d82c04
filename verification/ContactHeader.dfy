/** The Contact header value: splitting it into its address and parameters, and
    printing it back with the lifetime granted (section 20.10 of RFC 3261). */
module ContactHeader {
  import opened Text

  // ---------------------------------------------------------------------
  // Splitting
  // ---------------------------------------------------------------------

  /** The parameter text being built, if it is not blank. */
  function Emit(cur: string): seq<string> { if Trim(cur) == "" then [] else [Trim(cur)] }

  /** The parameters still to come: `rest` unread, inside quotes or not, `cur` built so far. */
  function Params(rest: string, quoted: bool, cur: string): seq<string>
    decreases |rest|
  {
    if rest == "" then Emit(cur)
    else if rest[0] == '"' then Params(rest[1..], !quoted, cur + [rest[0]])
    else if rest[0] == ';' && !quoted then Emit(cur) + Params(rest[1..], quoted, "")
    else Params(rest[1..], quoted, cur + [rest[0]])
  }

  /** A '<' is followed by its '>', or there is no '<'. */
  predicate Closed(contact: string) {
    var t := Trim(contact);
    var start := IndexOf(t, '<');
    start >= 0 ==> '>' in t[start..]
  }

  /** Where the header parameters begin in a trimmed Contact value. */
  function CutAt(t: string): (i: nat)
    ensures i <= |t|
  {
    var start := IndexOf(t, '<');
    if start >= 0 then
      var end := IndexOf(t[start..], '>');
      if end < 0 then |t| else start + end + 1
    else
      var semi := IndexOf(t, ';');
      if semi >= 0 then semi else |t|
  }

  /** The text the parameters are read from. */
  function ParamText(contact: string): string { Trim(contact)[CutAt(Trim(contact))..] }

  function AddressOf(contact: string): string {
    if Closed(contact) then Trim(Trim(contact)[..CutAt(Trim(contact))]) else Trim(contact)
  }

  function ParamsOf(contact: string): seq<string> { Params(ParamText(contact), false, "") }

  lemma CutPlaces(t: string)
    ensures CutAt(t) == |t| ==> t[..CutAt(t)] == t && t[CutAt(t)..] == ""
  {
  }

  /** splitContact. An address whose '<' is not closed has no parameters. */
  method SplitContact(value: string) returns (address: string, params: seq<string>)
    ensures address == AddressOf(value) && params == ParamsOf(value)
  {
    var contact := Trim(value);
    var rest := "";
    var start := IndexOf(contact, '<');
    CutPlaces(contact);
    if start >= 0 {
      var end := IndexOf(contact[start..], '>');
      if end < 0 {
        assert ParamText(value) == "" && Trim("") == "";
        return contact, [];
      }
      rest := contact[start + end + 1..];
      contact := contact[..start + end + 1];
    } else {
      var idx := IndexOf(contact, ';');
      if idx >= 0 {
        rest := contact[idx..];
        contact := contact[..idx];
      }
    }
    params := SplitParams(rest);
    address := Trim(contact);
  }

  /** splitContact's scan: parameters are separated by the ';' outside quotes. */
  method SplitParams(rest: string) returns (params: seq<string>)
    ensures params == Params(rest, false, "")
  {
    params := [];
    var current := "";
    var quoted := false;
    for i := 0 to |rest|
      invariant params + Params(rest[i..], quoted, current) == Params(rest, false, "")
    {
      var r := rest[i];
      assert rest[i..][0] == r && rest[i..][1..] == rest[i + 1..];
      if r == '"' {
        quoted := !quoted;
        current := current + [r];
      } else if r == ';' && !quoted {
        var p := Trim(current);
        if p != "" {
          params := params + [p];
        }
        current := "";
      } else {
        current := current + [r];
      }
    }
    var p := Trim(current);
    if p != "" {
      params := params + [p];
    }
  }

  // ---------------------------------------------------------------------
  // Reading and setting the lifetime
  // ---------------------------------------------------------------------

  function ParamName(p: string): string {
    var eq := IndexOf(p, '=');
    Trim(if eq >= 0 then p[..eq] else p)
  }

  function ParamValue(p: string): string {
    var eq := IndexOf(p, '=');
    TrimQuotes(Trim(if eq >= 0 then p[eq + 1..] else ""))
  }

  /** strings.Trim(value, `"`). */
  function TrimQuotes(s: string): string
    decreases |s|
  {
    if s != "" && s[0] == '"' then TrimQuotes(s[1..])
    else if s != "" && s[|s| - 1] == '"' then TrimQuotes(s[..|s| - 1])
    else s
  }

  predicate IsExpires(p: string) { EqualFold(ParamName(p), "expires") }

  /** The parameters that are not an expires, in order. */
  function Keep(ps: seq<string>): seq<string> {
    if ps == [] then [] else (if IsExpires(ps[0]) then [] else [ps[0]]) + Keep(ps[1..])
  }

  /** The value of the first expires parameter. */
  function FirstExpires(ps: seq<string>): Option<string> {
    if ps == [] then None
    else if IsExpires(ps[0]) then Some(ParamValue(ps[0]))
    else FirstExpires(ps[1..])
  }

  function ExpiresParam(contact: string): Option<string> { FirstExpires(ParamsOf(contact)) }

  function Grant(e: nat): string { "expires=" + Itoa(e) }

  /** contactWithExpires. */
  function WithExpires(contact: string, e: nat): string {
    AddressOf(contact) + ";" + Join(Keep(ParamsOf(contact)) + [Grant(e)], ";")
  }

  lemma KeepNext(params: seq<string>, i: nat)
    requires i < |params|
    ensures Keep(params[..i + 1]) == Keep(params[..i]) + if IsExpires(params[i]) then [] else [params[i]]
  {
    assert params[..i + 1] == params[..i] + [params[i]];
    KeepOfConcat(params[..i], [params[i]]);
  }

  method KeptParams(params: seq<string>) returns (kept: seq<string>)
    ensures kept == Keep(params)
  {
    kept := [];
    for i := 0 to |params|
      invariant kept == Keep(params[..i])
    {
      KeepNext(params, i);
      if !EqualFold(ParamName(params[i]), "expires") {
        kept := kept + [params[i]];
      }
    }
    assert params[..|params|] == params;
  }

  method ContactWithExpires(contact: string, e: nat) returns (value: string)
    ensures value == WithExpires(contact, e)
  {
    var uri, params := SplitContact(contact);
    var kept := KeptParams(params);
    value := uri + ";" + Join(kept + ["expires=" + Itoa(e)], ";");
  }

  method ContactExpires(contact: string) returns (value: Option<string>)
    ensures value == ExpiresParam(contact)
  {
    var _, params := SplitContact(contact);
    for i := 0 to |params|
      invariant FirstExpires(params[i..]) == FirstExpires(params)
    {
      assert params[i..][0] == params[i] && params[i..][1..] == params[i + 1..];
      if EqualFold(ParamName(params[i]), "expires") {
        return Some(ParamValue(params[i]));
      }
    }
    value := None;
  }

  // ---------------------------------------------------------------------
  // Quoting
  // ---------------------------------------------------------------------

  /** Whether the text ends inside quotes when it starts in state q. */
  function EndsQuoted(s: string, q: bool): bool {
    if s == "" then q else EndsQuoted(s[1..], if s[0] == '"' then !q else q)
  }

  /** No ';' outside quotes when the text starts in state q. */
  predicate Whole(s: string, q: bool) {
    s == "" || (!(s[0] == ';' && !q) && Whole(s[1..], if s[0] == '"' then !q else q))
  }

  /** The parameter part has an even number of quotes. */
  predicate EvenQuotes(contact: string) { !EndsQuoted(ParamText(contact), false) }

  lemma QuotingOfConcat(a: string, b: string, q: bool)
    ensures EndsQuoted(a + b, q) == EndsQuoted(b, EndsQuoted(a, q))
    ensures Whole(a + b, q) <==> Whole(a, q) && Whole(b, EndsQuoted(a, q))
  {
    if a == "" {
      assert a + b == b;
    } else {
      assert (a + b)[1..] == a[1..] + b;
      QuotingOfConcat(a[1..], b, if a[0] == '"' then !q else q);
    }
  }

  lemma SpaceDoesNotQuote(c: char, q: bool)
    requires IsSpace(c)
    ensures EndsQuoted([c], q) == q && Whole([c], q)
  {
  }

  /** Trimming white space changes neither the quoting nor the wholeness. */
  lemma TrimKeepsQuoting(s: string, q: bool)
    ensures EndsQuoted(Trim(s), q) == EndsQuoted(s, q)
    ensures Whole(Trim(s), q) <==> Whole(s, q)
    decreases |s|
  {
    if s != "" && IsSpace(s[0]) {
      assert s == [s[0]] + s[1..];
      SpaceDoesNotQuote(s[0], q);
      QuotingOfConcat([s[0]], s[1..], q);
      TrimKeepsQuoting(s[1..], q);
    } else if s != "" && IsSpace(s[|s| - 1]) {
      var n := |s| - 1;
      assert s == s[..n] + [s[n]];
      SpaceDoesNotQuote(s[n], EndsQuoted(s[..n], q));
      QuotingOfConcat(s[..n], [s[n]], q);
      assert s[..n] == "" || !IsSpace(s[..n][0]);
      TrimKeepsQuoting(s[..n], q);
    }
  }

  /** Text without an unquoted ';' is read into the parameter being built. */
  lemma ScanThrough(p: string, rest: string, q: bool, cur: string)
    requires Whole(p, q)
    ensures Params(p + rest, q, cur) == Params(rest, EndsQuoted(p, q), cur + p)
    decreases |p|
  {
    if p == "" {
      assert p + rest == rest && cur + p == cur;
    } else {
      assert (p + rest)[1..] == p[1..] + rest && (p + rest)[0] == p[0];
      assert cur + [p[0]] + p[1..] == cur + p;
      ScanThrough(p[1..], rest, if p[0] == '"' then !q else q, cur + [p[0]]);
    }
  }

  // ---------------------------------------------------------------------
  // What splitting yields
  // ---------------------------------------------------------------------

  /** A parameter as splitContact returns it. */
  predicate Param(p: string) { p != "" && Trimmed(p) && Whole(p, false) }

  predicate Balanced(p: string) { Param(p) && !EndsQuoted(p, false) }

  predicate AllBalanced(ps: seq<string>) { forall i :: 0 <= i < |ps| ==> Balanced(ps[i]) }

  lemma EmitShape(cur: string)
    requires Whole(cur, false)
    ensures forall p :: p in Emit(cur) ==> Param(p) && EndsQuoted(p, false) == EndsQuoted(cur, false)
    ensures EndsQuoted(cur, false) ==> Emit(cur) != []
  {
    TrimIsTrimmed(cur);
    TrimKeepsQuoting(cur, false);
  }

  /** All parameters but the last are balanced; the last is too unless the quotes are odd. */
  predicate Shaped(ps: seq<string>, open: bool) {
    if open then ps != [] && AllBalanced(ps[..|ps| - 1]) && Param(ps[|ps| - 1]) && EndsQuoted(ps[|ps| - 1], false)
    else AllBalanced(ps)
  }

  lemma ShapedAfter(first: seq<string>, ps: seq<string>, open: bool)
    requires AllBalanced(first) && Shaped(ps, open)
    ensures Shaped(first + ps, open)
  {
    if open {
      assert (first + ps)[..|first + ps| - 1] == first + ps[..|ps| - 1];
    }
  }

  lemma ParamsShape(rest: string, q: bool, cur: string)
    requires Whole(cur, false) && EndsQuoted(cur, false) == q
    ensures Shaped(Params(rest, q, cur), EndsQuoted(rest, q))
    decreases |rest|
  {
    EmitShape(cur);
    if rest != "" {
      QuotingOfConcat(cur, [rest[0]], false);
      if rest[0] == ';' && !q {
        ParamsShape(rest[1..], q, "");
        ShapedAfter(Emit(cur), Params(rest[1..], q, ""), EndsQuoted(rest[1..], q));
      } else {
        ParamsShape(rest[1..], if rest[0] == '"' then !q else q, cur + [rest[0]]);
      }
    }
  }

  /** Splitting invents no character. */
  lemma ParamsLack(rest: string, q: bool, cur: string, c: char)
    requires c !in rest && c !in cur
    ensures forall p :: p in Params(rest, q, cur) ==> c !in p
    decreases |rest|
  {
    TrimIsTrimmed(cur);
    if rest != "" {
      if rest[0] == ';' && !q {
        ParamsLack(rest[1..], q, "", c);
      } else {
        ParamsLack(rest[1..], if rest[0] == '"' then !q else q, cur + [rest[0]], c);
      }
    }
  }

  // ---------------------------------------------------------------------
  // Printing and splitting again
  // ---------------------------------------------------------------------

  /** The parameters as printed after the address. */
  function Tail(ps: seq<string>): string { if ps == [] then "" else ";" + ps[0] + Tail(ps[1..]) }

  lemma JoinIsTail(ps: seq<string>)
    requires ps != []
    ensures ";" + Join(ps, ";") == Tail(ps)
  {
    if |ps| > 1 {
      JoinIsTail(ps[1..]);
    }
  }

  lemma SemicolonEmits(s: string, cur: string)
    requires s != "" && s[0] == ';'
    ensures Params(s, false, cur) == Emit(cur) + Params(s[1..], false, "")
  {
  }

  lemma TailStarts(ps: seq<string>, x: string)
    requires ps != []
    ensures Tail(ps) + x == ";" + (ps[0] + (Tail(ps[1..]) + x))
    ensures (Tail(ps) + x)[1..] == ps[0] + (Tail(ps[1..]) + x)
  {
  }

  lemma BalancedReads(p: string, more: string)
    requires Balanced(p)
    ensures Params(p + more, false, "") == Params(more, false, p) && Emit(p) == [p]
  {
    ScanThrough(p, more, false, "");
    assert "" + p == p;
    TrimOfTrimmed(p);
  }

  /** Balanced parameters are read back one by one, whatever follows them. */
  lemma {:induction false} TailReads(ps: seq<string>, x: string, cur: string)
    requires AllBalanced(ps) && x != "" && x[0] == ';'
    ensures Params(Tail(ps) + x, false, cur) == Emit(cur) + ps + Params(x[1..], false, "")
    decreases |ps|
  {
    if ps == [] {
      assert Tail(ps) + x == x;
      SemicolonEmits(x, cur);
    } else {
      var more := Tail(ps[1..]) + x;
      TailStarts(ps, x);
      SemicolonEmits(Tail(ps) + x, cur);
      BalancedReads(ps[0], more);
      TailReads(ps[1..], x, ps[0]);
      assert ps == [ps[0]] + ps[1..];
    }
  }

  /** A last parameter with no unquoted ';' is read whole. */
  lemma LastReads(p: string)
    requires Param(p)
    ensures Params(p, false, "") == [p]
  {
    assert p + "" == p && "" + p == p;
    ScanThrough(p, "", false, "");
    TrimOfTrimmed(p);
  }

  lemma NoSpecialsInGrant(e: nat)
    ensures Balanced(Grant(e)) && Grant(e)[|Grant(e)| - 1] != ' '
    ensures '<' !in Grant(e) && '>' !in Grant(e) && '"' !in Grant(e) && ';' !in Grant(e)
    ensures Whole(Grant(e), true) && EndsQuoted(Grant(e), true)
  {
    ItoaDigits(e);
    var g := Grant(e);
    assert forall i :: 0 <= i < |g| ==> g[i] != '"' && g[i] != ';' && g[i] != '<' && g[i] != '>' && !IsSpace(g[i]) by {
      assert forall i :: 8 <= i < |g| ==> g[i] == Itoa(e)[i - 8];
    }
    PlainText(g, false);
    PlainText(g, true);
  }

  lemma PlainText(s: string, q: bool)
    requires '"' !in s && ';' !in s
    ensures Whole(s, q) && EndsQuoted(s, q) == q
  {
  }

  /** Well-formed: reading back what was printed gives the parameters kept and the lifetime. */
  lemma PrintedParamsReadBack(kept: seq<string>, e: nat)
    requires AllBalanced(kept)
    ensures Params(Tail(kept + [Grant(e)]), false, "") == kept + [Grant(e)]
  {
    NoSpecialsInGrant(e);
    TailOfConcat(kept, [Grant(e)]);
    TailReads(kept, ";" + Grant(e), "");
    assert Tail([Grant(e)]) == ";" + Grant(e);
    assert (";" + Grant(e))[1..] == Grant(e);
    LastReads(Grant(e));
  }

  lemma TailOfConcat(a: seq<string>, b: seq<string>)
    ensures Tail(a + b) == Tail(a) + Tail(b)
  {
    if a == [] {
      assert a + b == b;
    } else {
      assert (a + b)[1..] == a[1..] + b;
      TailOfConcat(a[1..], b);
    }
  }

  function Swallowed(bad: string, e: nat): string { bad + (";" + Grant(e)) }

  lemma SwallowedIsParam(bad: string, e: nat)
    requires Param(bad) && EndsQuoted(bad, false)
    ensures Param(Swallowed(bad, e)) && EndsQuoted(Swallowed(bad, e), false)
  {
    NoSpecialsInGrant(e);
    QuotingOfConcat(";", Grant(e), true);
    QuotingOfConcat(bad, ";" + Grant(e), false);
    var s := Swallowed(bad, e);
    assert s[|s| - 1] == Grant(e)[|Grant(e)| - 1];
  }

  lemma TailOfTwo(bad: string, e: nat)
    ensures Tail([bad, Grant(e)]) == ";" + Swallowed(bad, e)
  {
    assert [bad, Grant(e)][1..] == [Grant(e)];
    assert Tail([Grant(e)]) == ";" + Grant(e);
  }

  /** With an unterminated quote the lifetime is swallowed by the last parameter. */
  lemma UnterminatedSwallows(good: seq<string>, bad: string, e: nat)
    requires AllBalanced(good) && Param(bad) && EndsQuoted(bad, false)
    ensures Params(Tail(good + [bad, Grant(e)]), false, "") == good + [Swallowed(bad, e)]
  {
    var x := ";" + Swallowed(bad, e);
    TailOfConcat(good, [bad, Grant(e)]);
    TailOfTwo(bad, e);
    SwallowedIsParam(bad, e);
    TailReads(good, x, "");
    LastReads(x[1..]);
  }

  lemma IndexOfInPrefix(a: string, b: string, c: char)
    ensures IndexOf(a, c) >= 0 ==> IndexOf(a + b, c) == IndexOf(a, c)
    ensures IndexOf(a, c) < 0 && IndexOf(b, c) >= 0 ==> IndexOf(a + b, c) == |a| + IndexOf(b, c)
    ensures IndexOf(a, c) < 0 && IndexOf(b, c) < 0 ==> IndexOf(a + b, c) < 0
  {
    var i, j := IndexOf(a, c), IndexOf(b, c);
    if i >= 0 {
      assert (a + b)[..i] == a[..i];
      IndexOfIsFirst(a + b, c, i);
    } else if j >= 0 {
      assert (a + b)[..|a| + j] == a + b[..j];
      IndexOfIsFirst(a + b, c, |a| + j);
    }
  }

  lemma AddressShape(contact: string)
    ensures Trimmed(AddressOf(contact))
    ensures Closed(contact) && '<' in Trim(contact) ==>
              var a := AddressOf(contact);
              && '<' in a && '>' in a[IndexOf(a, '<')..]
              && IndexOf(a[IndexOf(a, '<')..], '>') == |a| - IndexOf(a, '<') - 1
    ensures '<' !in Trim(contact) ==> '<' !in AddressOf(contact) && ';' !in AddressOf(contact)
  {
    var t := Trim(contact);
    TrimIsTrimmed(contact);
    TrimIsTrimmed(t[..CutAt(t)]);
    if Closed(contact) && '<' in t {
      BracketShape(t);
      TrimOfTrimmed(t[..CutAt(t)]);
    }
  }

  /** A text cut after its '>' ends in it. */
  lemma BracketShape(t: string)
    requires Trimmed(t) && '<' in t && '>' in t[IndexOf(t, '<')..]
    ensures var a := t[..CutAt(t)];
            && Trimmed(a) && '<' in a && '>' in a[IndexOf(a, '<')..]
            && IndexOf(a[IndexOf(a, '<')..], '>') == |a| - IndexOf(a, '<') - 1
  {
    var start := IndexOf(t, '<');
    var end := IndexOf(t[start..], '>');
    var a := t[..start + end + 1];
    assert a[..start] == t[..start] && a[start..][..end] == t[start..][..end];
    IndexOfIsFirst(a, '<', start);
    IndexOfIsFirst(a[start..], '>', end);
  }

  /** Anything printed after the address as header parameters is cut off at the same place. */
  lemma CutAfterAddress(contact: string, tail: string)
    requires Closed(contact) && tail != "" && tail[0] == ';' && !IsSpace(tail[|tail| - 1])
    requires '<' in Trim(contact) || '<' !in tail
    ensures var out := AddressOf(contact) + tail;
            && Closed(out) && AddressOf(out) == AddressOf(contact) && ParamText(out) == tail
  {
    var a := AddressOf(contact);
    var out := a + tail;
    AddressShape(contact);
    TailStaysTrimmed(a, tail);
    TrimOfTrimmed(a);
    if '<' in Trim(contact) {
      CutAfterBracket(a, tail, IndexOf(a, '<'));
    } else {
      CutAfterPlain(a, tail);
    }
    assert out[..|a|] == a && out[|a|..] == tail;
  }

  lemma TailStaysTrimmed(a: string, tail: string)
    requires Trimmed(a) && tail != "" && tail[0] == ';' && !IsSpace(tail[|tail| - 1])
    ensures Trim(a + tail) == a + tail
  {
    var out := a + tail;
    assert out[|out| - 1] == tail[|tail| - 1];
    assert a != "" ==> out[0] == a[0];
    TrimOfTrimmed(out);
  }

  lemma CutAfterBracket(a: string, tail: string, start: nat)
    requires IndexOf(a, '<') == start && IndexOf(a[start..], '>') == |a| - start - 1
    ensures IndexOf(a + tail, '<') == start && IndexOf((a + tail)[start..], '>') == |a| - start - 1
  {
    IndexOfInPrefix(a, tail, '<');
    IndexOfInPrefix(a[start..], tail, '>');
    assert (a + tail)[start..] == a[start..] + tail;
  }

  lemma CutAfterPlain(a: string, tail: string)
    requires '<' !in a && '<' !in tail && ';' !in a && tail != "" && tail[0] == ';'
    ensures CutAt(a + tail) == |a| && IndexOf(a + tail, '<') == -1
  {
    IndexOfInPrefix(a, tail, ';');
  }

  lemma KeepIsFilter(ps: seq<string>)
    ensures forall p :: p in Keep(ps) <==> p in ps && !IsExpires(p)
  {
  }

  lemma KeepOfConcat(a: seq<string>, b: seq<string>)
    ensures Keep(a + b) == Keep(a) + Keep(b)
  {
    if a == [] {
      assert a + b == b;
    } else {
      assert (a + b)[1..] == a[1..] + b;
      KeepOfConcat(a[1..], b);
    }
  }

  lemma KeepOfKept(ps: seq<string>)
    requires forall p :: p in ps ==> !IsExpires(p)
    ensures Keep(ps) == ps && FirstExpires(ps) == None
  {
    if ps != [] {
      KeepOfKept(ps[1..]);
    }
  }

  lemma FirstExpiresOfConcat(a: seq<string>, p: string)
    requires FirstExpires(a) == None
    ensures FirstExpires(a + [p]) == if IsExpires(p) then Some(ParamValue(p)) else None
  {
    if a == [] {
      assert a + [p] == [p] && [p][1..] == [];
    } else {
      assert (a + [p])[1..] == a[1..] + [p];
      FirstExpiresOfConcat(a[1..], p);
    }
  }

  lemma GrantIsExpires(e: nat)
    ensures IsExpires(Grant(e)) && ParamValue(Grant(e)) == Itoa(e)
  {
    var g := Grant(e);
    assert g[..7] == "expires" && g[8..] == Itoa(e);
    IndexOfIsFirst(g, '=', 7);
    TrimOfTrimmed("expires");
    ItoaDigits(e);
    TrimOfTrimmed(Itoa(e));
  }

  /** What an unterminated quote swallows is no expires parameter. */
  lemma SwallowedIsNotExpires(bad: string, e: nat)
    requires Param(bad) && EndsQuoted(bad, false) && !IsExpires(bad)
    ensures !IsExpires(Swallowed(bad, e))
  {
    var s := Swallowed(bad, e);
    var g := ";" + Grant(e);
    IndexOfInPrefix(bad, g, '=');
    if IndexOf(bad, '=') >= 0 {
      assert s[..IndexOf(bad, '=')] == bad[..IndexOf(bad, '=')];
    } else {
      NameWithGrant(bad, e);
    }
  }

  lemma NameWithGrant(bad: string, e: nat)
    requires bad != "" && Trimmed(bad) && '=' !in bad
    ensures ParamName(bad + (";" + Grant(e))) == bad + ";expires"
  {
    var g := ";" + Grant(e);
    var s := bad + g;
    assert g[..8] == ";expires" && g[8] == '=';
    assert s[..|bad| + 8] == bad + ";expires" && s[|bad| + 8] == '=';
    IndexOfIsFirst(s, '=', |bad| + 8);
    TrimOfTrimmed(bad + ";expires");
  }

  // ---------------------------------------------------------------------
  // Main results
  // ---------------------------------------------------------------------

  /** The Contact values whose printed lifetime can be read back from the Contact:
      the address is closed, and no unterminated quote is left in the parameters kept. */
  predicate Rereadable(contact: string) {
    && Closed(contact)
    && (EvenQuotes(contact) || (ParamsOf(contact) != [] && IsExpires(ParamsOf(contact)[|ParamsOf(contact)| - 1])))
  }

  lemma WithExpiresIsTail(contact: string, e: nat)
    ensures WithExpires(contact, e) == AddressOf(contact) + Tail(Keep(ParamsOf(contact)) + [Grant(e)])
  {
    JoinIsTail(Keep(ParamsOf(contact)) + [Grant(e)]);
  }

  lemma TailEnds(kept: seq<string>, e: nat)
    ensures var tail := Tail(kept + [Grant(e)]);
            && tail != "" && tail[0] == ';'
            && tail[|tail| - 1] == Grant(e)[|Grant(e)| - 1] && !IsSpace(tail[|tail| - 1])
            && ((forall p :: p in kept ==> '<' !in p) ==> '<' !in tail)
  {
    NoSpecialsInGrant(e);
    TailOfConcat(kept, [Grant(e)]);
    assert Tail([Grant(e)]) == ";" + Grant(e);
    if forall p :: p in kept ==> '<' !in p {
      TailLacks(kept, '<');
    }
  }

  lemma TailLacks(ps: seq<string>, c: char)
    requires c != ';' && forall p :: p in ps ==> c !in p
    ensures c !in Tail(ps)
  {
  }

  /** Splitting what was printed: the same address, and the printed tail as parameter text. */
  lemma PrintedSplits(contact: string, e: nat)
    requires Closed(contact)
    ensures var out := WithExpires(contact, e);
            && Closed(out) && AddressOf(out) == AddressOf(contact)
            && ParamText(out) == Tail(Keep(ParamsOf(contact)) + [Grant(e)])
  {
    var kept := Keep(ParamsOf(contact));
    WithExpiresIsTail(contact, e);
    KeepIsFilter(ParamsOf(contact));
    if '<' !in Trim(contact) {
      assert '<' !in ParamText(contact);
      ParamsLack(ParamText(contact), false, "", '<');
    }
    TailEnds(kept, e);
    CutAfterAddress(contact, Tail(kept + [Grant(e)]));
  }

  lemma KeepStaysBalanced(ps: seq<string>)
    requires AllBalanced(ps)
    ensures AllBalanced(Keep(ps))
  {
    if ps != [] {
      KeepStaysBalanced(ps[1..]);
    }
  }

  lemma KeptOfEven(contact: string)
    requires Rereadable(contact)
    ensures AllBalanced(Keep(ParamsOf(contact)))
  {
    var ps := ParamsOf(contact);
    ParamsShape(ParamText(contact), false, "");
    if !EvenQuotes(contact) {
      assert ps == ps[..|ps| - 1] + [ps[|ps| - 1]];
      KeepOfConcat(ps[..|ps| - 1], [ps[|ps| - 1]]);
      assert [ps[|ps| - 1]][1..] == [];
      KeepStaysBalanced(ps[..|ps| - 1]);
    } else {
      KeepStaysBalanced(ps);
    }
  }

  lemma KeptOfOdd(contact: string) returns (good: seq<string>, bad: string)
    requires Closed(contact) && !Rereadable(contact)
    ensures Keep(ParamsOf(contact)) == good + [bad] && AllBalanced(good)
    ensures Param(bad) && EndsQuoted(bad, false) && !IsExpires(bad)
    ensures forall p :: p in good ==> !IsExpires(p)
  {
    var ps := ParamsOf(contact);
    ParamsShape(ParamText(contact), false, "");
    good, bad := Keep(ps[..|ps| - 1]), ps[|ps| - 1];
    assert ps == ps[..|ps| - 1] + [bad];
    KeepOfConcat(ps[..|ps| - 1], [bad]);
    assert [bad][1..] == [];
    KeepIsFilter(ps[..|ps| - 1]);
    KeepStaysBalanced(ps[..|ps| - 1]);
  }

  /** Print, then split: the original address and parameters, in order, without any
      expires, plus the lifetime granted. */
  lemma {:induction false} ContactRoundTrip(contact: string, e: nat)
    requires Rereadable(contact)
    ensures var out := WithExpires(contact, e);
            AddressOf(out) == AddressOf(contact) && ParamsOf(out) == Keep(ParamsOf(contact)) + [Grant(e)]
  {
    PrintedSplits(contact, e);
    KeptOfEven(contact);
    PrintedParamsReadBack(Keep(ParamsOf(contact)), e);
  }

  lemma UnclosedHasNoParams(contact: string, e: nat)
    requires !Closed(contact)
    ensures ParamsOf(contact) == [] && AddressOf(contact) == Trim(contact)
    ensures WithExpires(contact, e) == Trim(contact) + (";" + Grant(e))
  {
    assert ParamText(contact) == "";
    assert Keep([]) + [Grant(e)] == [Grant(e)];
  }

  lemma UnclosedStaysUnclosed(contact: string, x: string)
    requires !Closed(contact) && x != "" && !IsSpace(x[|x| - 1]) && '>' !in x
    ensures !Closed(Trim(contact) + x) && Trim(Trim(contact) + x) == Trim(contact) + x
  {
    var t := Trim(contact);
    TrimIsTrimmed(contact);
    TrimOfTrimmed(t + x);
    IndexOfInPrefix(t, x, '<');
    var start := IndexOf(t, '<');
    assert (t + x)[start..] == t[start..] + x;
  }

  lemma UnclosedAccumulates(contact: string, e: nat, e': nat)
    requires !Closed(contact)
    ensures var out := WithExpires(contact, e);
            ExpiresParam(out) == None && WithExpires(out, e') == out + (";" + Grant(e'))
  {
    NoSpecialsInGrant(e);
    UnclosedHasNoParams(contact, e);
    UnclosedStaysUnclosed(contact, ";" + Grant(e));
    UnclosedHasNoParams(WithExpires(contact, e), e');
  }

  lemma TailSnoc(ps: seq<string>, p: string)
    ensures Tail(ps + [p]) == Tail(ps) + (";" + p)
  {
    TailOfConcat(ps, [p]);
    assert [p][1..] == [];
  }

  /** The two printed forms end alike: the swallowing parameter is the bad one, a ';' and the lifetime. */
  lemma SwallowedTail(good: seq<string>, bad: string, e: nat)
    ensures Tail(good + [bad, Grant(e)]) == Tail(good + [Swallowed(bad, e)])
  {
    assert good + [bad, Grant(e)] == (good + [bad]) + [Grant(e)];
    TailSnoc(good + [bad], Grant(e));
    TailSnoc(good, bad);
    TailSnoc(good, Swallowed(bad, e));
    assert Tail(good) + (";" + bad) + (";" + Grant(e)) == Tail(good) + (";" + (bad + (";" + Grant(e))));
  }

  lemma UnterminatedParams(contact: string, e: nat)
    requires Closed(contact) && !Rereadable(contact)
    ensures var out := WithExpires(contact, e);
            && ExpiresParam(out) == None && Keep(ParamsOf(out)) == ParamsOf(out)
            && AddressOf(out) == AddressOf(contact) && out == AddressOf(contact) + Tail(ParamsOf(out))
  {
    var good, bad := KeptOfOdd(contact);
    PrintedSplits(contact, e);
    WithExpiresIsTail(contact, e);
    assert good + [bad] + [Grant(e)] == good + [bad, Grant(e)];
    UnterminatedSwallows(good, bad, e);
    SwallowedIsNotExpires(bad, e);
    KeepOfKept(good + [Swallowed(bad, e)]);
    SwallowedTail(good, bad, e);
  }

  lemma UnterminatedAccumulates(contact: string, e: nat, e': nat)
    requires Closed(contact) && !Rereadable(contact)
    ensures var out := WithExpires(contact, e);
            ExpiresParam(out) == None && WithExpires(out, e') == out + (";" + Grant(e'))
  {
    var out := WithExpires(contact, e);
    UnterminatedParams(contact, e);
    WithExpiresIsTail(out, e');
    TailSnoc(ParamsOf(out), Grant(e'));
  }

  lemma PrintedLength(contact: string, e: nat)
    ensures |WithExpires(contact, e)| == |AddressOf(contact)| + |Tail(Keep(ParamsOf(contact)))| + 1 + |Grant(e)|
  {
    WithExpiresIsTail(contact, e);
    TailOfConcat(Keep(ParamsOf(contact)), [Grant(e)]);
    assert Tail([Grant(e)]) == ";" + Grant(e);
  }

  lemma RegrantOverwrites(contact: string, e: nat, e': nat)
    requires Rereadable(contact)
    ensures WithExpires(WithExpires(contact, e), e') == WithExpires(contact, e')
  {
    ContactRoundTrip(contact, e);
    var kept := Keep(ParamsOf(contact));
    assert Keep(kept + [Grant(e)]) == kept by {
      KeepIsFilter(ParamsOf(contact));
      KeepOfKept(kept);
      KeepOfConcat(kept, [Grant(e)]);
      GrantIsExpires(e);
      assert [Grant(e)][1..] == [];
    }
  }

  /** Granting again replaces the lifetime exactly when the Contact is rereadable;
      otherwise a second expires is appended after the first. */
  lemma RegrantOverwritesIffRereadable(contact: string, e: nat, e': nat)
    ensures WithExpires(WithExpires(contact, e), e') == WithExpires(contact, e') <==> Rereadable(contact)
    ensures !Rereadable(contact) ==>
              WithExpires(WithExpires(contact, e), e') == WithExpires(contact, e) + (";" + Grant(e'))
  {
    if Rereadable(contact) {
      RegrantOverwrites(contact, e, e');
    } else {
      if Closed(contact) {
        UnterminatedAccumulates(contact, e, e');
      } else {
        UnclosedAccumulates(contact, e, e');
      }
      PrintedLength(contact, e);
      PrintedLength(contact, e');
    }
  }

  /** The lifetime read back from the printed Contact: the one granted, or none at all. */
  lemma ReadBackIsGrantOrNothing(contact: string, e: nat)
    ensures ExpiresParam(WithExpires(contact, e)) == if Rereadable(contact) then Some(Itoa(e)) else None
  {
    if Rereadable(contact) {
      ContactRoundTrip(contact, e);
      KeepIsFilter(ParamsOf(contact));
      KeepOfKept(Keep(ParamsOf(contact)));
      FirstExpiresOfConcat(Keep(ParamsOf(contact)), Grant(e));
      GrantIsExpires(e);
    } else if Closed(contact) {
      UnterminatedAccumulates(contact, e, e);
    } else {
      UnclosedAccumulates(contact, e, e);
    }
  }
}
