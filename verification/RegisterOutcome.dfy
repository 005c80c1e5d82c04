/** What a REGISTER comes to, in terms of the texts and numbers that came in: the lifetime asked for, the
    lifetime granted, the reply, and the contact stored. */
module RegisterOutcome {
  import opened Text
  import opened ContactHeader
  import opened ContactValues
  import opened Registering
  import R = Registrar
  import Runs = RegistrarRuns

  // ---------------------------------------------------------------------
  // The lifetime asked for
  // ---------------------------------------------------------------------

  /** A lifetime as a client may write it: decimal digits, up to 2^63 - 1. */
  predicate Valid(s: string) { s != "" && AllDigits(s) && Value(s) <= MAX_INT64 }

  predicate NoNumber(s: string) { Atoi(s).None? || Atoi(s).value < 0 }

  /** The Contact's first expires parameter, whatever the Expires header says; if that is missing or no
      number, the header; if that is no number either, 300 s. */
  lemma RequestedIs(contact: string, header: string)
    ensures var p := ExpiresParam(contact);
            && (p.Some? && Valid(p.value) ==> Requested(contact, header) == Value(p.value))
            && ((p.None? || NoNumber(p.value)) && Valid(Trim(header)) ==>
                  Requested(contact, header) == Value(Trim(header)))
            && ((p.None? || NoNumber(p.value)) && NoNumber(Trim(header)) ==> Requested(contact, header) == 300)
  {
    var p := ExpiresParam(contact);
    if p.Some? && Valid(p.value) {
      AtoiOfDigits(p.value);
    }
    if Valid(Trim(header)) {
      AtoiOfDigits(Trim(header));
    }
  }

  /** The same from a Contact given by its parts. */
  lemma RequestedOfParts(uri: string, ps: seq<Part>, k: int, header: string)
    requires '<' !in uri && '>' !in uri && AllProper(ps)
    requires 0 <= k <= |ps| && (forall j :: 0 <= j < k ==> !SaysExpires(ps[j].name))
    requires k < |ps| ==> SaysExpires(ps[k].name)
    ensures k < |ps| && Valid(ValueOf(ps[k])) ==> Requested(ContactOf(uri, ps), header) == Value(ValueOf(ps[k]))
    ensures k == |ps| && Valid(Trim(header)) ==> Requested(ContactOf(uri, ps), header) == Value(Trim(header))
    ensures k == |ps| && NoNumber(Trim(header)) ==> Requested(ContactOf(uri, ps), header) == 300
  {
    ExpiresIsRead(uri, ps, k);
    RequestedIs(ContactOf(uri, ps), header);
  }

  // ---------------------------------------------------------------------
  // The address stored
  // ---------------------------------------------------------------------

  /** The URI in the first angle brackets, without them. */
  lemma UriInBrackets(before: string, uri: string, after: string, fallback: string)
    requires '<' !in before && '>' !in before && '<' !in uri && '>' !in uri
    requires Trimmed(before + "<" + uri + ">" + after)
    ensures ExtractUri(before + "<" + uri + ">" + after, fallback) == uri
  {
    var v := before + "<" + uri + ">" + after;
    TrimOfTrimmed(v);
    var i, j := |before|, |before| + 1 + |uri|;
    assert v[..i] == before && v[i] == '<' && v[i + 1..j] == uri && v[j] == '>';
    assert v[..j] == before + "<" + uri;
    IndexOfIsFirst(v, '<', i);
    IndexOfIsFirst(v, '>', j);
  }

  /** Without brackets, what comes before the first ';'. */
  lemma UriBare(uri: string, after: string, fallback: string)
    requires uri != "" && Trimmed(uri) && ';' !in uri && '<' !in uri && '<' !in after
    requires after == "" || (after[0] == ';' && !IsSpace(after[|after| - 1]))
    ensures ExtractUri(uri + after, fallback) == uri
  {
    var v := uri + after;
    if after != "" {
      TailStaysTrimmed(uri, after);
      assert v[..|uri|] == uri;
      IndexOfIsFirst(v, ';', |uri|);
    } else {
      assert v == uri;
    }
    TrimOfTrimmed(uri);
    assert '<' !in v;
  }

  lemma NoUri(value: string, fallback: string)
    ensures Trim(value) == "" ==> ExtractUri(value, fallback) == fallback
  {
  }

  // ---------------------------------------------------------------------
  // Reply and registrar
  // ---------------------------------------------------------------------

  function Asked(req: Request): int {
    Requested(if req.contact.Some? then req.contact.value else "", req.expiresHeader)
  }

  /** A lifetime of 0 unregisters: the one contact at the source, or with Contact "*" all of the AOR. */
  lemma ZeroUnregisters(t: R.Table, req: Request, natMax: int, now: int)
    requires Runs.AllUnique(t) && Asked(req) == 0
    ensures var (reply, t') := Handled(t, req, natMax, now);
            && reply == Unregistered
            && Runs.Get(t', req.aor, req.source) == None
            && (forall x, a :: x != req.aor ==> Runs.Get(t', x, a) == Runs.Get(t, x, a))
            && (req.contact == Some("*") ==> forall a :: Runs.Get(t', req.aor, a) == None)
            && (req.contact != Some("*") ==>
                  forall a :: a != req.source ==> Runs.Get(t', req.aor, a) == Runs.Get(t, req.aor, a))
  {
    Runs.OperationRefinesMap(t, Runs.Unregister(req.aor), 0);
    Runs.OperationRefinesMap(t, Runs.UnregisterContact(req.aor, req.source), 0);
  }

  /** The lifetime granted: what was asked for, lowered to the limit for a NATed UDP contact. */
  predicate Grants(req: Request, natMax: int, e: int) {
    e == if req.natUdp && 0 < natMax < Asked(req) then natMax else Asked(req)
  }

  /** What the registrar must hold for it. */
  predicate Stores(c: R.Contact, req: Request, e: int, now: int) {
    && c.address == req.source && c.transport == req.transport && c.behindNat == req.natUdp && c.missedPings == 0
    && (c.isWebRTC <==>
          req.transport == "ws" || req.transport == "wss" || req.transport == "WS" || req.transport == "WSS")
    && (e <= 9_223_372_036 ==> c.expiresAt == now + e * 1_000_000_000)
    && (req.contact.None? ==> c.uri == "sip:" + req.aor)
    && (req.contact.Some? ==> c.uri == ExtractUri(req.contact.value, "sip:" + req.aor))
  }

  /** Any other lifetime registers, and announces what it registers: the contact of this AOR at the source is
      the new one, no other changes, and the reply carries the granted lifetime twice. */
  lemma OthersRegister(t: R.Table, req: Request, natMax: int, now: int, e: int)
    requires Runs.AllUnique(t) && Asked(req) > 0 && Grants(req, natMax, e)
    ensures e > 0
    ensures var (reply, t') := Handled(t, req, natMax, now);
            var echoed := if req.contact.Some? then req.contact.value else "<sip:" + req.aor + ">";
            && reply == Registered(WithExpires(echoed, e), Itoa(e))
            && Runs.Get(t', req.aor, req.source).Some? && Stores(Runs.Get(t', req.aor, req.source).value, req, e, now)
            && forall x, a :: x != req.aor || a != req.source ==> Runs.Get(t', x, a) == Runs.Get(t, x, a)
  {
    assert "<" + "sip:" == "<sip:";
    Runs.OperationRefinesMap(t, Runs.Register(req.aor, StoredContact(req, e, now)), 0);
    StoredIsRight(req, e, now);
  }

  lemma StoredIsRight(req: Request, e: int, now: int)
    requires e > 0
    ensures Stores(StoredContact(req, e, now), req, e, now)
  {
    if e <= 9_223_372_036 {
      WrapIsExact(e * 1_000_000_000);
    }
  }

  /** SIP.js unregisters with a Contact parameter only: the answer is that of an unregistration, whatever the
      Expires header says, and the contact is gone. */
  lemma ZeroInContactUnregisters(t: R.Table, req: Request, natMax: int, now: int, uri: string, ps: seq<Part>, k: int)
    requires Runs.AllUnique(t) && '<' !in uri && '>' !in uri && AllProper(ps)
    requires 0 <= k < |ps| && SaysExpires(ps[k].name) && ValueOf(ps[k]) == "0"
    requires forall j :: 0 <= j < k ==> !SaysExpires(ps[j].name)
    requires req.contact == Some(ContactOf(uri, ps))
    ensures var (reply, t') := Handled(t, req, natMax, now);
            reply == Unregistered && Runs.Get(t', req.aor, req.source) == None
  {
    assert Value("0") == 0 by { assert "0"[..0] == ""; }
    RequestedOfParts(uri, ps, k, req.expiresHeader);
    ZeroUnregisters(t, req, natMax, now);
  }
}
