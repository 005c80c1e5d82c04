/** REGISTER, once authenticated: the lifetime a client asks for, the one it is
    granted and told, and the one the registrar stores. */
module Registering {
  import opened Text
  import opened ContactHeader
  import R = Registrar

  const DEFAULT_EXPIRES: int := 300
  const SECOND: int := 1_000_000_000

  /** The longest lifetime, in seconds, a 64-bit count of nanoseconds can hold: about 292 years. */
  const LONGEST: int := 9_223_372_036

  /** registerExpires: the Contact's expires parameter, else the Expires header, else 300 s. */
  function Requested(contact: string, expiresHeader: string): (e: int)
    ensures 0 <= e <= MAX_INT64
  {
    var fromHeader :=
      var h := Atoi(Trim(expiresHeader));
      if h.Some? && h.value >= 0 then h.value else DEFAULT_EXPIRES;
    var p := ExpiresParam(contact);
    if p.None? then fromHeader
    else
      var n := Atoi(p.value);
      if n.Some? && n.value >= 0 then n.value else fromHeader
  }

  /** A NATed UDP contact gets at most NATMaxExpires, when that is set. */
  function Granted(requested: int, natUdp: bool, natMax: int): int {
    if natUdp && natMax > 0 && requested > natMax then natMax else requested
  }

  /** A 64-bit signed integer wraps around. */
  function Wrap64(x: int): int { (x + MAX_INT64 + 1) % (2 * (MAX_INT64 + 1)) - MAX_INT64 - 1 }

  /** time.Duration(expires) * time.Second. */
  function Lifetime(e: int): int { Wrap64(e * SECOND) }

  datatype Request = Request(aor: string, contact: Option<string>, expiresHeader: string,
                             source: string, transport: string, natUdp: bool)

  datatype Reply = Unregistered | Registered(contact: string, expires: string)

  function ContactText(req: Request): string { if req.contact.Some? then req.contact.value else "" }

  /** The Contact the 200's lifetime is set on. */
  function EchoedContact(req: Request): string {
    if req.contact.Some? then req.contact.value else "<" + "sip:" + req.aor + ">"
  }

  function ExtractUri(value: string, fallback: string): string {
    var v := Trim(value);
    var start, end := IndexOf(v, '<'), IndexOf(v, '>');
    if v == "" then fallback
    else if start >= 0 && end > start then v[start + 1..end]
    else
      var semi := IndexOf(v, ';');
      if semi >= 0 then Trim(v[..semi]) else v
  }

  function UriOf(req: Request): string {
    if req.contact.Some? then ExtractUri(req.contact.value, "sip:" + req.aor) else "sip:" + req.aor
  }

  predicate IsWebRTC(transport: string) { transport in ["ws", "wss", "WS", "WSS"] }

  function StoredContact(req: Request, e: int, now: int): R.Contact {
    R.Contact(UriOf(req), req.source, req.transport, IsWebRTC(req.transport), now + Lifetime(e), req.natUdp, 0)
  }

  /** What handleRegister answers, and the registrar's lists afterwards. */
  function Handled(t: R.Table, req: Request, natMax: int, now: int): (Reply, R.Table) {
    var asked := Requested(ContactText(req), req.expiresHeader);
    var e := Granted(asked, req.natUdp, natMax);
    if asked == 0 then
      (Unregistered,
       if req.contact == Some("*") then R.DoUnregister(t, req.aor) else R.DoUnregisterContact(t, req.aor, req.source))
    else
      (Registered(WithExpires(EchoedContact(req), if e > 0 then e else 0), Itoa(if e > 0 then e else 0)),
       R.DoRegister(t, req.aor, StoredContact(req, e, now)))
  }

  /** handleRegister after authentication. natUdp says the contact is a UDP one registered from behind a NAT. */
  method HandleRegister(store: R.ContactStore, req: Request, natMax: int, now: int) returns (reply: Reply)
    modifies store
    ensures (reply, store.contacts) == Handled(old(store.contacts), req, natMax, now)
  {
    var expires := Requested(ContactText(req), req.expiresHeader);
    if req.contact == Some("*") && expires == 0 {
      store.Unregister(req.aor);
      return Unregistered;
    }
    if expires == 0 {
      store.UnregisterContact(req.aor, req.source);
      return Unregistered;
    }
    reply := GrantContact(store, req, expires, natMax, now);
  }

  /** The second half of handleRegister: a lifetime was asked for. */
  method GrantContact(store: R.ContactStore, req: Request, asked: int, natMax: int, now: int) returns (reply: Reply)
    requires asked > 0
    modifies store
    ensures var e := Granted(asked, req.natUdp, natMax);
            && e > 0 && reply == Registered(WithExpires(EchoedContact(req), e), Itoa(e))
            && store.contacts == R.DoRegister(old(store.contacts), req.aor, StoredContact(req, e, now))
  {
    var expires := asked;
    if req.natUdp && natMax > 0 && expires > natMax {
      expires := natMax;
    }
    var contact := StoredContact(req, expires, now);
    store.Register(req.aor, contact);
    var echoed := ContactWithExpires(EchoedContact(req), expires);
    reply := Registered(echoed, Itoa(expires));
  }

  lemma WrapIsExact(x: int)
    ensures Wrap64(x) == x <==> -MAX_INT64 - 1 <= x <= MAX_INT64
  {
  }

  /** What a client reads out of the 200's Contact and Expires is the lifetime granted, for every Contact
      value, malformed ones included: its expires parameter is that number in decimal or not there, and
      then the Expires header is. */
  lemma ClientReadsTheGrant(contact: string, e: nat)
    requires e <= MAX_INT64
    ensures Requested(WithExpires(contact, e), Itoa(e)) == e && Atoi(Itoa(e)) == Some(e)
    ensures var p := ExpiresParam(WithExpires(contact, e)); p == Some(Itoa(e)) || p == None
  {
    ReadBackIsGrantOrNothing(contact, e);
    AtoiOfItoa(e);
    ItoaDigits(e);
    TrimOfTrimmed(Itoa(e));
  }

  /** Registration end to end: the lifetime read back is positive, within the NAT
      limit, and exactly the one stored if and only if it is at most 9223372036 s. */
  lemma RegistrationAgrees(req: Request, natMax: int)
    requires natMax <= MAX_INT64 && Requested(ContactText(req), req.expiresHeader) > 0
    ensures var e := Granted(Requested(ContactText(req), req.expiresHeader), req.natUdp, natMax);
            && e > 0
            && Requested(WithExpires(EchoedContact(req), e), Itoa(e)) == e
            && (req.natUdp && natMax > 0 ==> e <= natMax)
            && (Lifetime(e) == e * SECOND <==> e <= LONGEST)
  {
    var e := Granted(Requested(ContactText(req), req.expiresHeader), req.natUdp, natMax);
    ClientReadsTheGrant(EchoedContact(req), e);
    WrapIsExact(e * SECOND);
  }

  /** From the next second on, up to twice that, the 200 grants the lifetime but the
      nanosecond count wraps to a negative one: the contact is stored already expired.
      Any client that is not a NATed UDP one can ask for it. */
  lemma {:induction false} LongRegistrationIsDeadOnArrival(req: Request, natMax: int, now: int)
    requires var e := Granted(Requested(ContactText(req), req.expiresHeader), req.natUdp, natMax);
             LONGEST < e <= 2 * LONGEST + 1
    ensures var e := Granted(Requested(ContactText(req), req.expiresHeader), req.natUdp, natMax);
            Requested(WithExpires(EchoedContact(req), e), Itoa(e)) == e && !R.IsLive(StoredContact(req, e, now), now)
  {
    var e := Granted(Requested(ContactText(req), req.expiresHeader), req.natUdp, natMax);
    ClientReadsTheGrant(EchoedContact(req), e);
    LifetimeWraps(e);
  }

  lemma LifetimeWraps(e: int)
    requires LONGEST < e <= 2 * LONGEST + 1
    ensures Lifetime(e) == e * SECOND - 2 * (MAX_INT64 + 1) < 0
  {
  }

  lemma AnyLifetimeCanBeAsked(aor: string, source: string, e: nat, natMax: int)
    requires e <= MAX_INT64
    ensures var req := Request(aor, None, Itoa(e), source, "udp", false);
            Granted(Requested(ContactText(req), req.expiresHeader), req.natUdp, natMax) == e
  {
    ItoaDigits(e);
    TrimOfTrimmed(Itoa(e));
    AtoiOfItoa(e);
  }
}
