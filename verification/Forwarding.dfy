/** Forwarded copies of requests and responses: which headers go on, and how the
    CSeq number is translated for a trunk whose digest challenge the SBC answered. */
module Forwarding {
  import opened Text
  import opened RouteSet
  import Slices

  const TWO32: nat := 0x1_0000_0000

  /** What a header says: its name, its text, and its number for a CSeq or a Max-Forwards. */
  datatype Field = Field(name: string, value: string, number: nat)

  function Lower(s: string): string { seq(|s|, i requires 0 <= i < |s| => LowerChar(s[i])) }

  predicate Named(f: Field, name: string) { Lower(f.name) == name }

  /** Header objects are shared by pointer, so a copy must not alias the original. */
  class Header {
    const name: string
    const value: string
    var number: nat

    constructor (f: Field)
      ensures Content() == f
    {
      name, value, number := f.name, f.value, f.number;
    }

    function Content(): Field
      reads this
    {
      Field(name, value, number)
    }
  }

  class Request {
    var headers: seq<Header>

    constructor ()
      ensures headers == []
    {
      headers := [];
    }

    function View(): (v: seq<Field>)
      reads this, headers
      ensures |v| == |headers| && forall i :: 0 <= i < |v| ==> v[i] == headers[i].Content()
    {
      ViewOf(headers)
    }
  }

  function ViewOf(hs: seq<Header>): (v: seq<Field>)
    reads hs
    ensures |v| == |hs| && forall i :: 0 <= i < |v| ==> v[i] == hs[i].Content()
  {
    seq(|hs|, i requires 0 <= i < |hs| reads hs => hs[i].Content())
  }

  // ---------------------------------------------------------------------
  // Building the forwarded request
  // ---------------------------------------------------------------------

  predicate Skipped(f: Field) { Named(f, "max-forwards") || Named(f, "content-length") }

  /** What one header of the request becomes. */
  function ForwardedField(h: Hops, f: Field, hopOf: string -> string, keepHop: string): seq<Field> {
    if Skipped(f) then []
    else if Named(f, "route") then
      var v := Filtered(h, f.value, hopOf, keepHop);
      if v != "" then [Field("Route", v, 0)] else []
    else [f]
  }

  function ForwardedFields(h: Hops, fs: seq<Field>, hopOf: string -> string, keepHop: string): seq<Field> {
    if fs == [] then []
    else ForwardedFields(h, fs[..|fs| - 1], hopOf, keepHop) + ForwardedField(h, fs[|fs| - 1], hopOf, keepHop)
  }

  /** The number of the first header of that name. */
  function FirstNumber(fs: seq<Field>, name: string): Option<nat> {
    if fs == [] then None
    else if Named(fs[0], name) then Some(fs[0].number)
    else FirstNumber(fs[1..], name)
  }

  function CSeqOf(fs: seq<Field>): Option<nat> { FirstNumber(fs, "cseq") }

  /** Max-Forwards of the forwarded request; negative when the request may not go on. */
  function HopsLeft(fs: seq<Field>): int {
    var mf := FirstNumber(fs, "max-forwards");
    if mf.Some? then mf.value - 1 else 70
  }

  method FindNumber(req: Request, name: string) returns (n: Option<nat>)
    ensures n == FirstNumber(req.View(), name)
  {
    var hs := req.headers;
    for i := 0 to |hs|
      invariant FirstNumber(req.View()[i..], name) == FirstNumber(req.View(), name)
    {
      assert req.View()[i..][0] == hs[i].Content() && req.View()[i..][1..] == req.View()[i + 1..];
      if Lower(hs[i].name) == name {
        return Some(hs[i].number);
      }
    }
    n := None;
  }

  /** One turn of the copying loop: at most one header, and a new object. */
  method ForwardHeader(hd: Header, h: Hops, hopOf: string -> string, keepHop: string) returns (out: seq<Header>)
    ensures |out| <= 1 && fresh(out)
    ensures ViewOf(out) == ForwardedField(h, hd.Content(), hopOf, keepHop)
  {
    var name := Lower(hd.name);
    if name == "max-forwards" || name == "content-length" {
      return [];
    }
    if name == "route" {
      var value := FilterRouteValueForHop(h, hd.value, hopOf, keepHop);
      if value == "" {
        return [];
      }
      var route := new Header(Field("Route", value, 0));
      return [route];
    }
    var clone := new Header(hd.Content());
    out := [clone];
  }

  method ForwardHeaders(hs: seq<Header>, h: Hops, hopOf: string -> string, keepHop: string) returns (out: seq<Header>)
    ensures fresh(out)
    ensures ViewOf(out) == ForwardedFields(h, ViewOf(hs), hopOf, keepHop)
  {
    ghost var view := ViewOf(hs);
    out := [];
    for i := 0 to |hs|
      invariant fresh(out)
      invariant ViewOf(out) == ForwardedFields(h, view[..i], hopOf, keepHop)
      invariant ViewOf(hs) == view
    {
      var one := ForwardHeader(hs[i], h, hopOf, keepHop);
      FieldsStep(h, view, i, hopOf, keepHop);
      ViewOfConcat(out, one);
      out := out + one;
    }
    assert view[..|hs|] == view;
  }

  lemma ViewOfConcat(a: seq<Header>, b: seq<Header>)
    ensures ViewOf(a + b) == ViewOf(a) + ViewOf(b)
  {
  }

  lemma FieldsStep(h: Hops, fs: seq<Field>, i: nat, hopOf: string -> string, keepHop: string)
    requires i < |fs|
    ensures ForwardedFields(h, fs[..i + 1], hopOf, keepHop) ==
            ForwardedFields(h, fs[..i], hopOf, keepHop) + ForwardedField(h, fs[i], hopOf, keepHop)
  {
    assert fs[..i + 1][..i] == fs[..i];
  }

  /** One hop fewer, or 70 for a request without the header. */
  method NextMaxForwards(req: Request) returns (left: int)
    ensures left == HopsLeft(req.View())
  {
    var mf := FindNumber(req, "max-forwards");
    left := 70;
    if mf.Some? {
      left := mf.value;
      left := left - 1;
    }
  }

  /** A new request with these headers and its Max-Forwards. */
  method RequestOf(out: seq<Header>, left: nat) returns (fwd: Request, last: Header)
    ensures fresh(fwd) && fresh(last) && fwd.headers == out + [last]
    ensures fwd.View() == ViewOf(out) + [Field("Max-Forwards", "", left)]
  {
    last := new Header(Field("Max-Forwards", "", left));
    fwd := new Request();
    fwd.headers := out + [last];
    ViewOfConcat(out, [last]);
  }

  /** buildForwardRequestWithURIAndRoute: cloned headers, our hops off the Route set,
      Max-Forwards one lower; null when that would be negative. It changes no object
      that existed before, so the request it is given stays as it was. */
  method BuildForward(req: Request, h: Hops, hopOf: string -> string, keepHop: string) returns (fwd: Request?)
    ensures fwd == null <==> HopsLeft(req.View()) < 0
    ensures fwd != null ==>
              && fresh(fwd) && fresh(fwd.headers)
              && fwd.View() == ForwardedFields(h, req.View(), hopOf, keepHop)
                               + [Field("Max-Forwards", "", HopsLeft(req.View()))]
  {
    var out := ForwardHeaders(req.headers, h, hopOf, keepHop);
    var left := NextMaxForwards(req);
    if left < 0 {
      return null;
    }
    var last: Header;
    fwd, last := RequestOf(out, left);
  }

  // ---------------------------------------------------------------------
  // CSeq translation
  // ---------------------------------------------------------------------

  /** digestCSeqOffset: how far the trunk's number runs ahead of FreeSWITCH's. */
  function DigestOffset(fs: Option<nat>, auth: Option<nat>): nat {
    if auth.None? || fs.None? || auth.value <= fs.value then 0 else auth.value - fs.value
  }

  /** The position of the CSeq header, or -1. */
  method FindCSeq(req: Request) returns (at: int)
    ensures -1 <= at < |req.headers|
    ensures at >= 0 ==> Named(req.View()[at], "cseq")
    ensures forall i :: 0 <= i < |req.headers| && (at < 0 || i < at) ==> !Named(req.View()[i], "cseq")
  {
    at := 0;
    while at < |req.headers|
      invariant 0 <= at <= |req.headers|
      invariant forall i :: 0 <= i < at ==> !Named(req.View()[i], "cseq")
    {
      if Lower(req.headers[at].name) == "cseq" {
        return;
      }
      at := at + 1;
    }
    at := -1;
  }

  lemma FirstNumberAt(fs: seq<Field>, name: string, at: nat)
    requires at < |fs| && Named(fs[at], name) && forall i :: 0 <= i < at ==> !Named(fs[i], name)
    ensures FirstNumber(fs, name) == Some(fs[at].number)
  {
    if at > 0 {
      FirstNumberAt(fs[1..], name, at - 1);
    }
  }

  lemma NoFirstNumber(fs: seq<Field>, name: string)
    requires forall i :: 0 <= i < |fs| ==> !Named(fs[i], name)
    ensures FirstNumber(fs, name) == None
  {
  }

  /** shiftCSeq, on a 32-bit number, in place. */
  method ShiftCSeq(req: Request, offset: nat)
    modifies req.headers
    ensures req.headers == old(req.headers)
    ensures CSeqOf(req.View()) == if old(CSeqOf(req.View())).None? || offset == 0 then old(CSeqOf(req.View()))
                                  else Some((old(CSeqOf(req.View())).value + offset) % TWO32)
  {
    var at := FindCSeq(req);
    if at < 0 {
      NoFirstNumber(req.View(), "cseq");
      return;
    }
    FirstNumberAt(req.View(), "cseq", at);
    if offset > 0 {
      ghost var before := req.View();
      req.headers[at].number := (req.headers[at].number + offset) % TWO32;
      assert forall i :: 0 <= i < at ==> req.View()[i] == before[i];
      FirstNumberAt(req.View(), "cseq", at);
    }
  }

  // ---------------------------------------------------------------------
  // Properties of the copies
  // ---------------------------------------------------------------------

  /** The values of the headers of that name, in order. */
  function Values(fs: seq<Field>, name: string): seq<string> {
    if fs == [] then []
    else Values(fs[..|fs| - 1], name) + if Named(fs[|fs| - 1], name) then [fs[|fs| - 1].value] else []
  }

  /** The fields of that name, in order. */
  function Of(fs: seq<Field>, name: string): seq<Field> { Slices.Filter(fs, (f: Field) => Named(f, name)) }

  lemma OfConcat(a: seq<Field>, b: seq<Field>, name: string)
    ensures Of(a + b, name) == Of(a, name) + Of(b, name)
  {
    Slices.FilterConcat(a, b, (f: Field) => Named(f, name));
  }

  lemma FirstNumberIsFirstOf(fs: seq<Field>, name: string)
    ensures FirstNumber(fs, name) == if Of(fs, name) == [] then None else Some(Of(fs, name)[0].number)
  {
    if fs != [] {
      FirstNumberIsFirstOf(fs[1..], name);
      assert fs == [fs[0]] + fs[1..];
      OfConcat([fs[0]], fs[1..], name);
      Slices.FilterOne(fs[0], (f: Field) => Named(f, name));
    }
  }

  lemma LowerNames()
    ensures Lower("Route") == "route" && Lower("Max-Forwards") == "max-forwards"
    ensures Lower("Content-Type") == "content-type" && Lower("To") == "to"
  {
  }

  /** Every header but the Route, Max-Forwards and Content-Length goes on unchanged, in order. */
  lemma {:induction false} OtherHeadersGoOn(h: Hops, fs: seq<Field>, hopOf: string -> string, keepHop: string,
                                            name: string)
    requires name != "route" && name != "max-forwards" && name != "content-length"
    ensures Of(ForwardedFields(h, fs, hopOf, keepHop), name) == Of(fs, name)
  {
    if fs != [] {
      var n := |fs| - 1;
      OtherHeadersGoOn(h, fs[..n], hopOf, keepHop, name);
      OfConcat(ForwardedFields(h, fs[..n], hopOf, keepHop), ForwardedField(h, fs[n], hopOf, keepHop), name);
      LowerNames();
      assert forall f: Field :: [f][..0] == [];
    }
  }

  /** FilteredHeaders, read from the other end. */
  lemma FilteredHeadersSnoc(h: Hops, hs: seq<string>, v: string, hopOf: string -> string, keepHop: string)
    ensures FilteredHeaders(h, hs + [v], hopOf, keepHop) ==
            FilteredHeaders(h, hs, hopOf, keepHop)
            + if Filtered(h, v, hopOf, keepHop) != "" then [Filtered(h, v, hopOf, keepHop)] else []
  {
    if hs == [] {
      assert [] + [v] == [v] && [v][1..] == [];
    } else {
      assert (hs + [v])[1..] == hs[1..] + [v];
      FilteredHeadersSnoc(h, hs[1..], v, hopOf, keepHop);
    }
  }

  lemma ValuesConcat(a: seq<Field>, b: seq<Field>, name: string)
    ensures Values(a + b, name) == Values(a, name) + Values(b, name)
  {
    if b == [] {
      assert a + b == a;
    } else {
      assert (a + b)[..|a + b| - 1] == a + b[..|b| - 1];
      ValuesConcat(a, b[..|b| - 1], name);
    }
  }

  lemma RouteOfField(h: Hops, f: Field, hopOf: string -> string, keepHop: string)
    ensures var v := Filtered(h, f.value, hopOf, keepHop);
            Values(ForwardedField(h, f, hopOf, keepHop), "route") == if Named(f, "route") && v != "" then [v] else []
  {
    LowerNames();
    assert forall g: Field :: [g][..0] == [];
  }

  lemma RoutesStep(h: Hops, fs: seq<Field>, hopOf: string -> string, keepHop: string)
    requires fs != []
    ensures var last := fs[|fs| - 1];
            && Values(ForwardedFields(h, fs, hopOf, keepHop), "route") ==
               Values(ForwardedFields(h, fs[..|fs| - 1], hopOf, keepHop), "route")
               + Values(ForwardedField(h, last, hopOf, keepHop), "route")
            && Values(fs, "route") ==
               Values(fs[..|fs| - 1], "route") + if Named(last, "route") then [last.value] else []
  {
    ValuesConcat(ForwardedFields(h, fs[..|fs| - 1], hopOf, keepHop), ForwardedField(h, fs[|fs| - 1], hopOf, keepHop),
                 "route");
  }

  /** The forwarded request's Route headers are the request's, filtered. */
  lemma {:induction false} RoutesAreFiltered(h: Hops, fs: seq<Field>, hopOf: string -> string, keepHop: string)
    ensures Values(ForwardedFields(h, fs, hopOf, keepHop), "route") ==
            FilteredHeaders(h, Values(fs, "route"), hopOf, keepHop)
  {
    if fs != [] {
      var rest, last := fs[..|fs| - 1], fs[|fs| - 1];
      RoutesAreFiltered(h, rest, hopOf, keepHop);
      RoutesStep(h, fs, hopOf, keepHop);
      RouteOfField(h, last, hopOf, keepHop);
      if Named(last, "route") {
        FilteredHeadersSnoc(h, Values(rest, "route"), last.value, hopOf, keepHop);
      } else {
        assert Values(fs, "route") == Values(rest, "route");
      }
    }
  }

  /** The copy carries the request's CSeq. */
  lemma CopyKeepsCSeq(h: Hops, fs: seq<Field>, hopOf: string -> string, keepHop: string, mf: Field)
    requires mf.name == "Max-Forwards"
    ensures CSeqOf(ForwardedFields(h, fs, hopOf, keepHop) + [mf]) == CSeqOf(fs)
  {
    OtherHeadersGoOn(h, fs, hopOf, keepHop, "cseq");
    OfConcat(ForwardedFields(h, fs, hopOf, keepHop), [mf], "cseq");
    LowerNames();
    assert [mf][..0] == [];
    FirstNumberIsFirstOf(fs, "cseq");
    FirstNumberIsFirstOf(ForwardedFields(h, fs, hopOf, keepHop) + [mf], "cseq");
  }

  /** The number of hops left is one lower than what the request's first Max-Forwards says, 70 without one. */
  lemma HopsLeftIs(fs: seq<Field>)
    ensures Of(fs, "max-forwards") != [] ==> HopsLeft(fs) == Of(fs, "max-forwards")[0].number - 1
    ensures Of(fs, "max-forwards") == [] ==> HopsLeft(fs) == 70
  {
    FirstNumberIsFirstOf(fs, "max-forwards");
  }

  lemma {:induction false} NoneSkippedIsForwarded(h: Hops, fs: seq<Field>, hopOf: string -> string, keepHop: string,
                                                  name: string)
    requires name == "max-forwards" || name == "content-length"
    ensures Of(ForwardedFields(h, fs, hopOf, keepHop), name) == []
  {
    if fs != [] {
      var n := |fs| - 1;
      NoneSkippedIsForwarded(h, fs[..n], hopOf, keepHop, name);
      OfConcat(ForwardedFields(h, fs[..n], hopOf, keepHop), ForwardedField(h, fs[n], hopOf, keepHop), name);
      LowerNames();
      assert forall f: Field :: [f][..0] == [];
    }
  }

  /** The copy has exactly one Max-Forwards, the last header, one lower than the request's; and no
      Content-Length, which is counted anew. The request is not forwarded exactly when its is 0. */
  lemma CopyCountsDown(h: Hops, fs: seq<Field>, hopOf: string -> string, keepHop: string)
    ensures HopsLeft(fs) < 0 <==> Of(fs, "max-forwards") != [] && Of(fs, "max-forwards")[0].number == 0
    ensures HopsLeft(fs) >= 0 ==>
              var mf := Field("Max-Forwards", "", HopsLeft(fs));
              var copy := ForwardedFields(h, fs, hopOf, keepHop) + [mf];
              && Of(copy, "max-forwards") == [mf] && Of(copy, "content-length") == []
              && mf.number == if Of(fs, "max-forwards") == [] then 70 else Of(fs, "max-forwards")[0].number - 1
  {
    HopsLeftIs(fs);
    if HopsLeft(fs) >= 0 {
      var mf := Field("Max-Forwards", "", HopsLeft(fs));
      LowerNames();
      LastHeader(ForwardedFields(h, fs, hopOf, keepHop), mf, "max-forwards");
      LastHeader(ForwardedFields(h, fs, hopOf, keepHop), mf, "content-length");
      NoneSkippedIsForwarded(h, fs, hopOf, keepHop, "max-forwards");
      NoneSkippedIsForwarded(h, fs, hopOf, keepHop, "content-length");
    }
  }

  lemma LastHeader(fs: seq<Field>, f: Field, name: string)
    ensures Of(fs + [f], name) == Of(fs, name) + if Named(f, name) then [f] else []
  {
    OfConcat(fs, [f], name);
    Slices.FilterOne(f, (g: Field) => Named(g, name));
  }

  /** A request of FreeSWITCH within a call (ACK, BYE, ...): the copy that goes to the
      far end carries the translated number; FreeSWITCH's own request is untouched. */
  method ForwardFromFS(req: Request, h: Hops, hopOf: string -> string, offset: nat) returns (fwd: Request?)
    ensures fwd == null <==> HopsLeft(req.View()) < 0
    ensures req.View() == old(req.View())
    ensures fwd != null ==>
              && fresh(fwd) && fresh(fwd.headers)
              && CSeqOf(fwd.View()) == Shifted(CSeqOf(req.View()), offset)
  {
    fwd := BuildForward(req, h, hopOf, "");
    if fwd != null {
      ghost var view := req.View();
      CopyKeepsCSeq(h, view, hopOf, "", Field("Max-Forwards", "", HopsLeft(view)));
      assert CSeqOf(fwd.View()) == CSeqOf(view);
      ShiftCSeq(fwd, offset);
      assert req.View() == view;
    }
  }

  function Shifted(n: Option<nat>, offset: nat): Option<nat> {
    if n.None? || offset == 0 then n else Some((n.value + offset) % TWO32)
  }
}
