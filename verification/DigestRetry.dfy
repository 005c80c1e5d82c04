/** A trunk call whose digest challenge the SBC answered itself: the trunk counts
    CSeq numbers from the authenticated INVITE, FreeSWITCH from its own. */
module DigestRetry {
  import opened Text
  import opened RouteSet
  import opened Forwarding
  import Slices

  /** Numbers a client may use (section 8.1.1.5 of RFC 3261). */
  const MAX_CSEQ: nat := 0x8000_0000

  /** The first part of handleInviteFromFSToTrunk after a challenge: DoDigestAuth raises the
      forwarded INVITE's number in place, by `raise`; the response carries the raised
      number; the offset is taken against FreeSWITCH's own request. */
  method AnswerChallenge(req: Request, h: Hops, hopOf: string -> string, raise: nat)
    returns (offset: nat, auth: Option<nat>)
    ensures req.View() == old(req.View())
    ensures HopsLeft(req.View()) >= 0 ==> auth == Shifted(CSeqOf(req.View()), raise)
    ensures offset == DigestOffset(CSeqOf(req.View()), auth)
  {
    auth := None;
    var fwd := ForwardFromFS(req, h, hopOf, raise);
    if fwd != null {
      auth := FindNumber(fwd, "cseq");
    }
    var own := FindNumber(req, "cseq");
    offset := DigestOffset(own, auth);
  }

  /** FreeSWITCH's ACK reaches the trunk with the authenticated INVITE's number exactly
      when that number is at least FreeSWITCH's own (section 13.2.2.4 of RFC 3261). */
  lemma AckCarriesAuthenticatedNumberIff(fs: nat, auth: nat)
    requires fs < TWO32 && auth < TWO32
    ensures Shifted(Some(fs), DigestOffset(Some(fs), Some(auth))) == Some(auth) <==> auth >= fs
  {
  }

  /** Two requests of FreeSWITCH keep their order at the trunk, and equal numbers stay equal; none is
      below the authenticated one's unless it was below FreeSWITCH's own, and no number wraps
      (section 12.2.1.1 of RFC 3261). */
  lemma RequestsKeepTheirOrder(fs: nat, auth: nat, n: nat, m: nat)
    requires fs < MAX_CSEQ && auth < MAX_CSEQ && n < MAX_CSEQ && m < MAX_CSEQ
    ensures var o := DigestOffset(Some(fs), Some(auth));
            var n', m' := Shifted(Some(n), o), Shifted(Some(m), o);
            && n' == Some(n + o) && m' == Some(m + o) && n'.value < TWO32
            && (n < m <==> n'.value < m'.value) && (n == m <==> n' == m')
            && (auth >= fs ==> (n >= fs <==> n'.value >= auth))
  {
  }

  /** Read from the forwarded copy instead, which already carries the raised number,
      the offset would be 0, and the ACK would miss the trunk's 200. */
  lemma OffsetFromTheCopyIsUseless(fs: nat, auth: nat)
    requires fs < auth < TWO32
    ensures Shifted(Some(fs), DigestOffset(Some(auth), Some(auth))) != Some(auth)
  {
  }

  // ---------------------------------------------------------------------
  // Responses relayed to FreeSWITCH
  // ---------------------------------------------------------------------

  predicate HopOnly(f: Field) {
    Lower(f.name) in ["via", "from", "to", "call-id", "cseq", "content-type", "content-length"]
  }

  /** The fields that pass, in order. */
  function Passing(fs: seq<Field>): seq<Field> { Slices.Filter(fs, (f: Field) => !HopOnly(f)) }

  function Unnamed(fs: seq<Field>, name: string): seq<Field> { Slices.Filter(fs, (f: Field) => !Named(f, name)) }

  /** copyResponseHeaders: src is the response received, dst the one made from our request. */
  function Relay(src: seq<Field>, dst: seq<Field>): seq<Field> {
    var tos := Of(src, "to");
    if tos == [] then Copied(src, dst) else Unnamed(Copied(src, dst), "to") + [tos[0]]
  }

  method PassingHeaders(src: seq<Field>) returns (passing: seq<Field>)
    ensures passing == Passing(src)
  {
    passing := [];
    for i := 0 to |src|
      invariant passing == Passing(src[..i])
    {
      assert src[..i + 1][..i] == src[..i];
      if !HopOnly(src[i]) {
        passing := passing + [src[i]];
      }
    }
    assert src[..|src|] == src;
  }

  method CopyResponseHeaders(src: seq<Field>, dst: seq<Field>) returns (result: seq<Field>)
    ensures result == Relay(src, dst)
  {
    var passing := PassingHeaders(src);
    result := dst + passing;
    var types := Of(src, "content-type");
    if types != [] {
      result := result + [Field("Content-Type", types[0].value, 0)];
    } else {
      assert result == dst + Passing(src) + [];
    }
    var tos := Of(src, "to");
    if tos != [] {
      result := Unnamed(result, "to") + [tos[0]];
    }
  }

  lemma PassingHasNone(fs: seq<Field>, name: string)
    requires name in ["via", "from", "to", "call-id", "cseq", "content-type", "content-length"]
    ensures Of(Passing(fs), name) == []
  {
    if fs != [] {
      var n := |fs| - 1;
      PassingHasNone(fs[..n], name);
      OfConcat(Passing(fs[..n]), if HopOnly(fs[n]) then [] else [fs[n]], name);
      assert forall f: Field :: [f][..0] == [];
    }
  }

  lemma UnnamedKeepsOthers(fs: seq<Field>, name: string, other: string)
    ensures Of(Unnamed(fs, name), other) == if other == name then [] else Of(fs, other)
  {
    if fs != [] {
      var n := |fs| - 1;
      UnnamedKeepsOthers(fs[..n], name, other);
      OfConcat(Unnamed(fs[..n], name), if Named(fs[n], name) then [] else [fs[n]], other);
      assert forall f: Field :: [f][..0] == [];
    }
  }

  lemma OfAreNamed(fs: seq<Field>, name: string)
    ensures forall f :: f in Of(fs, name) ==> Named(f, name)
  {
    Slices.FilterKeepsExactly(fs, (f: Field) => Named(f, name));
  }

  lemma OneOf(f: Field, name: string)
    ensures Of([f], name) == if Named(f, name) then [f] else []
  {
    Slices.FilterOne(f, (f: Field) => Named(f, name));
  }

  /** What copyResponseHeaders appends for the body's type. */
  function TypeField(src: seq<Field>): seq<Field> {
    var types := Of(src, "content-type");
    if types == [] then [] else [Field("Content-Type", types[0].value, 0)]
  }

  function Copied(src: seq<Field>, dst: seq<Field>): seq<Field> { dst + Passing(src) + TypeField(src) }

  lemma TypeFieldIsType(src: seq<Field>, name: string)
    requires name != "content-type"
    ensures Of(TypeField(src), name) == []
  {
    LowerNames();
    if TypeField(src) != [] {
      OneOf(TypeField(src)[0], name);
    }
  }

  lemma CopiedKeeps(src: seq<Field>, dst: seq<Field>, name: string)
    requires name != "content-type" && Of(Passing(src), name) == []
    ensures Of(Copied(src, dst), name) == Of(dst, name)
  {
    TypeFieldIsType(src, name);
    OfConcat(dst, Passing(src), name);
    OfConcat(dst + Passing(src), TypeField(src), name);
  }

  lemma RelayKeeps(src: seq<Field>, dst: seq<Field>, name: string)
    requires name != "to" && Of(Copied(src, dst), name) == Of(dst, name)
    ensures Of(Relay(src, dst), name) == Of(dst, name)
  {
    var tos := Of(src, "to");
    if tos != [] {
      OfAreNamed(src, "to");
      assert tos[0] in tos && Named(tos[0], "to");
      UnnamedKeepsOthers(Copied(src, dst), "to", name);
      OfConcat(Unnamed(Copied(src, dst), "to"), [tos[0]], name);
      OneOf(tos[0], name);
    }
  }

  lemma RelayReplacesTo(src: seq<Field>, dst: seq<Field>)
    ensures Of(src, "to") != [] ==> Of(Relay(src, dst), "to") == [Of(src, "to")[0]]
  {
    var tos := Of(src, "to");
    if tos != [] {
      OfAreNamed(src, "to");
      UnnamedKeepsOthers(Copied(src, dst), "to", "to");
      OfConcat(Unnamed(Copied(src, dst), "to"), [tos[0]], "to");
      OneOf(tos[0], "to");
    }
  }

  /** The response FreeSWITCH gets keeps the Via, From, Call-ID and CSeq of its own
      request; the To is the far end's, with its tag. */
  lemma RelayKeepsFreeSwitchsHeaders(src: seq<Field>, dst: seq<Field>, name: string)
    requires name == "via" || name == "from" || name == "call-id" || name == "cseq"
    ensures Of(Relay(src, dst), name) == Of(dst, name)
    ensures FirstNumber(Relay(src, dst), name) == FirstNumber(dst, name)
    ensures Of(src, "to") != [] ==> Of(Relay(src, dst), "to") == [Of(src, "to")[0]]
  {
    PassingHasNone(src, name);
    CopiedKeeps(src, dst, name);
    RelayKeeps(src, dst, name);
    FirstNumberIsFirstOf(Relay(src, dst), name);
    FirstNumberIsFirstOf(dst, name);
    RelayReplacesTo(src, dst);
  }

  lemma PassingKeeps(fs: seq<Field>, name: string)
    requires name !in ["via", "from", "to", "call-id", "cseq", "content-type", "content-length"]
    ensures Of(Passing(fs), name) == Of(fs, name)
  {
    Slices.FilterTwice(fs, (f: Field) => !HopOnly(f), (f: Field) => Named(f, name));
  }

  /** Every other header of the response arrives, after those of the response made from our request: Contact,
      Record-Route, Allow and the rest. */
  lemma RelayCarriesTheRest(src: seq<Field>, dst: seq<Field>, name: string)
    requires name !in ["via", "from", "to", "call-id", "cseq", "content-type", "content-length"]
    ensures Of(Relay(src, dst), name) == Of(dst, name) + Of(src, name)
  {
    PassingKeeps(src, name);
    TypeFieldIsType(src, name);
    OfConcat(dst, Passing(src), name);
    OfConcat(dst + Passing(src), TypeField(src), name);
    ToLeavesOthers(src, dst, name);
  }

  lemma ToLeavesOthers(src: seq<Field>, dst: seq<Field>, name: string)
    requires name != "to"
    ensures Of(Relay(src, dst), name) == Of(Copied(src, dst), name)
  {
    var tos := Of(src, "to");
    if tos != [] {
      OfAreNamed(src, "to");
      assert tos[0] in tos && Named(tos[0], "to");
      UnnamedKeepsOthers(Copied(src, dst), "to", name);
      OfConcat(Unnamed(Copied(src, dst), "to"), [tos[0]], name);
      OneOf(tos[0], name);
    }
  }

  lemma RelayOfBody(src: seq<Field>, dst: seq<Field>, name: string)
    requires name == "content-type" || name == "content-length"
    ensures Of(Relay(src, dst), name) == Of(dst, name) + Of(TypeField(src), name)
  {
    PassingHasNone(src, name);
    OfConcat(dst, Passing(src), name);
    OfConcat(dst + Passing(src), TypeField(src), name);
    ToLeavesOthers(src, dst, name);
  }

  /** The body's type arrives, once: the first the response names. Its length does not, it is counted anew. */
  lemma RelayCarriesTheType(src: seq<Field>, dst: seq<Field>)
    ensures Of(src, "content-type") == [] ==> Of(Relay(src, dst), "content-type") == Of(dst, "content-type")
    ensures Of(src, "content-type") != [] ==>
              Of(Relay(src, dst), "content-type") ==
              Of(dst, "content-type") + [Field("Content-Type", Of(src, "content-type")[0].value, 0)]
    ensures Of(Relay(src, dst), "content-length") == Of(dst, "content-length")
  {
    RelayOfBody(src, dst, "content-type");
    RelayOfBody(src, dst, "content-length");
    LowerNames();
    TypeFieldIsType(src, "content-length");
    if Of(src, "content-type") != [] {
      OneOf(TypeField(src)[0], "content-type");
    }
  }

  /** The To is the response's, with the far end's tag; only a response without one leaves ours. */
  lemma RelayCarriesTheTo(src: seq<Field>, dst: seq<Field>)
    ensures Of(src, "to") != [] ==> Of(Relay(src, dst), "to") == [Of(src, "to")[0]]
    ensures Of(src, "to") == [] ==> Of(Relay(src, dst), "to") == Of(dst, "to")
  {
    RelayReplacesTo(src, dst);
    if Of(src, "to") == [] {
      PassingHasNone(src, "to");
      CopiedKeeps(src, dst, "to");
    }
  }

  // ---------------------------------------------------------------------
  // A whole dialog
  // ---------------------------------------------------------------------

  /** FreeSWITCH's ACK, with its INVITE's number fs, and its other requests in the dialog: in any order,
      and with repeated numbers, as the ACK of a re-INVITE has its number. */
  predicate Dialog(views: seq<seq<Field>>, fs: nat) {
    && |views| > 0 && CSeqOf(views[0]) == Some(fs)
    && (forall i :: 0 <= i < |views| ==> CSeqOf(views[i]).Some? && CSeqOf(views[i]).value < MAX_CSEQ)
  }

  /** What the trunk must see of the dialog: every request's number moved by the same offset, without a
      wrap, higher, lower or the same as another's where it was; and so the ACK with the authenticated
      INVITE's number, exactly when that is at least FreeSWITCH's own. */
  predicate TrunkSees(views: seq<seq<Field>>, numbers: seq<Option<nat>>, fs: nat, auth: nat) {
    && |numbers| == |views| > 0
    && (forall i :: 0 <= i < |views| ==> CSeqOf(views[i]).Some? && numbers[i].Some? && numbers[i].value < TWO32)
    && (forall i, j :: 0 <= i < |views| && 0 <= j < |views| ==>
          && (CSeqOf(views[i]).value < CSeqOf(views[j]).value <==> numbers[i].value < numbers[j].value)
          && (CSeqOf(views[i]) == CSeqOf(views[j]) <==> numbers[i] == numbers[j]))
    && (forall i :: 0 <= i < |views| ==> numbers[i].value - CSeqOf(views[i]).value == numbers[0].value - fs)
    && (numbers[0] == Some(auth) <==> auth >= fs)
  }

  /** The numbers of forwarded requests. */
  function Moved(views: seq<seq<Field>>, offset: nat): (numbers: seq<Option<nat>>)
    ensures |numbers| == |views| && forall i :: 0 <= i < |views| ==> numbers[i] == Shifted(CSeqOf(views[i]), offset)
  {
    seq(|views|, i requires 0 <= i < |views| => Shifted(CSeqOf(views[i]), offset))
  }

  lemma DialogKeepsItsOrder(views: seq<seq<Field>>, fs: nat, auth: nat)
    requires Dialog(views, fs) && auth < MAX_CSEQ
    ensures TrunkSees(views, Moved(views, DigestOffset(Some(fs), Some(auth))), fs, auth)
  {
    var offset := DigestOffset(Some(fs), Some(auth));
    forall i | 0 <= i < |views|
      ensures Moved(views, offset)[i] == Some(CSeqOf(views[i]).value + offset)
      ensures Moved(views, offset)[i].value < TWO32
    {
      RequestsKeepTheirOrder(fs, auth, CSeqOf(views[i]).value, fs);
    }
    AckCarriesAuthenticatedNumberIff(fs, auth);
  }

  /** What goes out for each request: nothing for one out of hops, else a copy with its number. */
  method ForwardAll(requests: seq<Request>, ghost views: seq<seq<Field>>, h: Hops, hopOf: string -> string, offset: nat)
    returns (sent: seq<Request?>)
    requires |requests| == |views| && forall i :: 0 <= i < |views| ==> requests[i].View() == views[i]
    ensures forall i :: 0 <= i < |views| ==> requests[i].View() == views[i]
    ensures |sent| == |views|
    ensures forall i :: 0 <= i < |views| ==> (sent[i] == null <==> HopsLeft(views[i]) < 0)
    ensures forall i :: 0 <= i < |views| && sent[i] != null ==>
              && fresh(sent[i]) && fresh(sent[i].headers)
              && CSeqOf(sent[i].View()) == Shifted(CSeqOf(views[i]), offset)
  {
    sent := [];
    for i := 0 to |requests|
      invariant |sent| == i
      invariant forall j :: 0 <= j < i ==> (sent[j] == null <==> HopsLeft(views[j]) < 0)
      invariant forall j :: 0 <= j < i && sent[j] != null ==>
                  && fresh(sent[j]) && fresh(sent[j].headers)
                  && CSeqOf(sent[j].View()) == Shifted(CSeqOf(views[j]), offset)
    {
      assert requests[i].View() == views[i];
      var fwd := ForwardFromFS(requests[i], h, hopOf, offset);
      sent := sent + [fwd];
    }
  }

  /** FreeSWITCH's side of a dialog whose INVITE was challenged, one message after the other: the
      INVITE is retried, the trunk's 200 `ok` is relayed on the response `reply` made from the INVITE,
      and the ACK and all later requests are forwarded. `views` are the requests' contents. */
  method TrunkDialog(invite: Request, requests: seq<Request>, ghost views: seq<seq<Field>>, h: Hops,
                     hopOf: string -> string, raise: nat, ok: seq<Field>, reply: seq<Field>)
    returns (auth: Option<nat>, relayed: seq<Field>, sent: seq<Request?>, ghost numbers: seq<Option<nat>>)
    requires CSeqOf(invite.View()).Some? && HopsLeft(invite.View()) >= 0
    requires |requests| == |views| && forall i :: 0 <= i < |views| ==> requests[i].View() == views[i]
    requires Dialog(views, CSeqOf(invite.View()).value)
    requires CSeqOf(reply) == CSeqOf(invite.View())
    requires Shifted(CSeqOf(invite.View()), raise).value < MAX_CSEQ
    ensures auth == Shifted(CSeqOf(invite.View()), raise)
    ensures TrunkSees(views, numbers, CSeqOf(invite.View()).value, auth.value)
    ensures |sent| == |views|
    ensures forall i :: 0 <= i < |views| ==> (sent[i] == null <==> HopsLeft(views[i]) < 0)
    ensures forall i :: 0 <= i < |views| && sent[i] != null ==>
              fresh(sent[i]) && fresh(sent[i].headers) && CSeqOf(sent[i].View()) == numbers[i]
    ensures invite.View() == old(invite.View())
    ensures forall i :: 0 <= i < |views| ==> requests[i].View() == views[i]
    ensures CSeqOf(relayed) == CSeqOf(invite.View())
  {
    var offset;
    offset, auth := AnswerChallenge(invite, h, hopOf, raise);
    numbers := Moved(views, offset);
    relayed := CopyResponseHeaders(ok, reply);
    RelayKeepsFreeSwitchsHeaders(ok, reply, "cseq");
    DialogKeepsItsOrder(views, CSeqOf(invite.View()).value, auth.value);
    sent := ForwardAll(requests, views, h, hopOf, offset);
  }
}
