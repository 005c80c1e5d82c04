/** The registrar: for each AOR the list of contacts registered, one per address. */
module Registrar {
  import opened Text
  import Slices

  datatype Contact = Contact(uri: string, address: string, transport: string, isWebRTC: bool,
                             expiresAt: int, behindNat: bool, missedPings: nat)

  type Table = map<string, seq<Contact>>

  function ListOf(t: Table, aor: string): seq<Contact> { if aor in t then t[aor] else [] }

  predicate IsLive(c: Contact, now: int) { now < c.expiresAt }

  /** What LookupAll returns of a list, in order. */
  function Live(list: seq<Contact>, now: int): seq<Contact> { Slices.Filter(list, (c: Contact) => IsLive(c, now)) }

  function OfType(list: seq<Contact>, webrtc: bool): seq<Contact> {
    Slices.Filter(list, (c: Contact) => c.isWebRTC == webrtc)
  }

  lemma LiveMembers(list: seq<Contact>, now: int)
    ensures forall c :: c in Live(list, now) <==> c in list && now < c.expiresAt
  {
    Slices.FilterKeepsExactly(list, (c: Contact) => IsLive(c, now));
  }

  lemma OfTypeMembers(list: seq<Contact>, webrtc: bool)
    ensures forall c :: c in OfType(list, webrtc) <==> c in list && c.isWebRTC == webrtc
  {
    Slices.FilterKeepsExactly(list, (c: Contact) => c.isWebRTC == webrtc);
  }

  lemma OfTypeNext(list: seq<Contact>, i: nat, webrtc: bool)
    requires i < |list|
    ensures OfType(list[..i + 1], webrtc) ==
            OfType(list[..i], webrtc) + if list[i].isWebRTC == webrtc then [list[i]] else []
  {
    assert list[..i + 1][..i] == list[..i];
  }

  /** The position of the contact with this address, or -1. */
  function Position(list: seq<Contact>, address: string): (i: int)
    ensures -1 <= i < |list|
    ensures i >= 0 ==> list[i].address == address
    ensures forall j :: 0 <= j < |list| && (i < 0 || j < i) ==> list[j].address != address
  {
    if list == [] then -1
    else if list[0].address == address then 0
    else
      var i := Position(list[1..], address);
      assert forall j :: 1 <= j < |list| ==> list[j] == list[1..][j - 1];
      if i < 0 then -1 else i + 1
  }

  function Put(list: seq<Contact>, c: Contact): seq<Contact> {
    var i := Position(list, c.address);
    if i >= 0 then list[i := c] else list + [c]
  }

  function Without(list: seq<Contact>, address: string): seq<Contact> {
    var i := Position(list, address);
    if i >= 0 then list[..i] + list[i + 1..] else list
  }

  // ---------------------------------------------------------------------
  // The operations on the whole table
  // ---------------------------------------------------------------------

  function DoRegister(t: Table, aor: string, c: Contact): Table { t[aor := Put(ListOf(t, aor), c)] }

  function DoUnregister(t: Table, aor: string): Table { t - {aor} }

  function DoUnregisterContact(t: Table, aor: string, address: string): Table {
    if Position(ListOf(t, aor), address) >= 0 then t[aor := Without(t[aor], address)] else t
  }

  function DoReap(t: Table, now: int): Table {
    map aor | aor in t && Live(t[aor], now) != [] :: Live(t[aor], now)
  }

  function DoPingAnswered(t: Table, aor: string, address: string): Table {
    var i := Position(ListOf(t, aor), address);
    if i >= 0 then t[aor := t[aor][i := t[aor][i].(missedPings := 0)]] else t
  }

  function DoPingMissed(t: Table, aor: string, address: string, maxMissed: int): Table {
    var i := Position(ListOf(t, aor), address);
    if i < 0 then t
    else
      var missed := t[aor][i].missedPings + 1;
      if missed < maxMissed then t[aor := t[aor][i := t[aor][i].(missedPings := missed)]]
      else if Without(t[aor], address) == [] then t - {aor}
      else t[aor := Without(t[aor], address)]
  }

  /** pingMissed reports that it dropped the AOR's last contact. */
  predicate ReportsEmptied(t: Table, aor: string, address: string, maxMissed: int) {
    var i := Position(ListOf(t, aor), address);
    i >= 0 && t[aor][i].missedPings + 1 >= maxMissed && Without(t[aor], address) == []
  }

  /** reap's map is reaped for every AOR but those still to do. */
  predicate HalfReaped(was: Table, t: Table, todo: set<string>, now: int) {
    && t.Keys <= was.Keys
    && (forall aor :: aor in was && aor in todo ==> aor in t && t[aor] == was[aor])
    && (forall aor :: aor in was && aor !in todo ==>
          if Live(was[aor], now) == [] then aor !in t else aor in t && t[aor] == Live(was[aor], now))
  }

  lemma AllReaped(was: Table, t: Table, now: int)
    requires HalfReaped(was, t, {}, now)
    ensures t == DoReap(was, now)
  {
  }

  class ContactStore {
    var contacts: Table

    constructor ()
      ensures contacts == map[]
    {
      contacts := map[];
    }

    method Register(aor: string, c: Contact)
      modifies this
      ensures contacts == DoRegister(old(contacts), aor, c)
    {
      var list := if aor in contacts then contacts[aor] else [];
      var found := false;
      for i := 0 to |list|
        invariant !found && list == ListOf(contacts, aor)
        invariant forall j :: 0 <= j < i ==> list[j].address != c.address
      {
        if list[i].address == c.address {
          list := list[i := c];
          found := true;
          break;
        }
      }
      if !found {
        list := list + [c];
      }
      contacts := contacts[aor := list];
    }

    method Unregister(aor: string)
      modifies this
      ensures contacts == DoUnregister(old(contacts), aor)
    {
      contacts := contacts - {aor};
    }

    method UnregisterContact(aor: string, address: string)
      modifies this
      ensures contacts == DoUnregisterContact(old(contacts), aor, address)
    {
      var list := if aor in contacts then contacts[aor] else [];
      for i := 0 to |list|
        invariant contacts == old(contacts) && forall j :: 0 <= j < i ==> list[j].address != address
      {
        if list[i].address == address {
          var backing := new Contact[|list|](k requires 0 <= k < |list| => list[k]);
          assert backing[..i] == list[..i] && backing[i + 1..|list|] == list[i + 1..];
          var m := Slices.RemoveAt(backing, |list|, i);
          contacts := contacts[aor := backing[..m]];
          return;
        }
      }
    }

    method LookupAll(aor: string, now: int) returns (result: seq<Contact>)
      ensures result == Live(ListOf(contacts, aor), now)
      ensures forall c :: c in result <==> aor in contacts && c in contacts[aor] && now < c.expiresAt
    {
      LiveMembers(ListOf(contacts, aor), now);
      var list := if aor in contacts then contacts[aor] else [];
      result := [];
      for i := 0 to |list|
        invariant result == Live(list[..i], now)
      {
        assert list[..i + 1][..i] == list[..i];
        if now < list[i].expiresAt {
          result := result + [list[i]];
        }
      }
      assert list[..|list|] == list;
    }

    method LookupByType(aor: string, webrtc: bool, now: int) returns (result: seq<Contact>)
      ensures result == OfType(Live(ListOf(contacts, aor), now), webrtc)
      ensures forall c :: c in result <==>
                            aor in contacts && c in contacts[aor] && now < c.expiresAt && c.isWebRTC == webrtc
    {
      var all := LookupAll(aor, now);
      result := [];
      for i := 0 to |all|
        invariant result == OfType(all[..i], webrtc)
      {
        OfTypeNext(all, i, webrtc);
        if all[i].isWebRTC == webrtc {
          result := result + [all[i]];
        }
      }
      assert all[..|all|] == all;
      OfTypeMembers(all, webrtc);
    }

    /** hostOf is the host of an address, as net.SplitHostPort reads it. */
    method HasSourceIP(ip: string, now: int, hostOf: string -> Option<string>) returns (has: bool)
      ensures has <==> exists aor, i :: aor in contacts && 0 <= i < |contacts[aor]|
                                        && hostOf(contacts[aor][i].address) == Some(ip)
                                        && now < contacts[aor][i].expiresAt
    {
      var todo := contacts.Keys;
      while todo != {}
        invariant todo <= contacts.Keys
        invariant forall aor, i :: aor in contacts && aor !in todo && 0 <= i < |contacts[aor]| ==>
                    !(hostOf(contacts[aor][i].address) == Some(ip) && IsLive(contacts[aor][i], now))
        decreases todo
      {
        var aor :| aor in todo;
        var list := contacts[aor];
        for i := 0 to |list|
          invariant forall j :: 0 <= j < i ==> !(hostOf(list[j].address) == Some(ip) && IsLive(list[j], now))
        {
          if hostOf(list[i].address) == Some(ip) && now < list[i].expiresAt {
            return true;
          }
        }
        todo := todo - {aor};
      }
      has := false;
    }

    /** Removes what ran out by now; the AORs it leaves with no contact, each once. */
    method Reap(now: int) returns (emptied: seq<string>)
      modifies this
      ensures contacts == DoReap(old(contacts), now)
      ensures forall aor :: aor in emptied <==> aor in old(contacts) && aor !in contacts
      ensures forall i, j :: 0 <= i < j < |emptied| ==> emptied[i] != emptied[j]
    {
      emptied := [];
      var todo := contacts.Keys;
      ghost var was := contacts;
      while todo != {}
        invariant todo <= was.Keys
        invariant HalfReaped(was, contacts, todo, now)
        invariant forall aor :: aor in emptied <==> aor in was && aor !in todo && aor !in contacts
        invariant forall i, j :: 0 <= i < j < |emptied| ==> emptied[i] != emptied[j]
        decreases todo
      {
        var aor :| aor in todo;
        var live := LookupAll(aor, now);
        if |live| == 0 {
          contacts := contacts - {aor};
          emptied := emptied + [aor];
        } else {
          contacts := contacts[aor := live];
        }
        todo := todo - {aor};
      }
      AllReaped(was, contacts, now);
    }

    method PingAnswered(aor: string, address: string)
      modifies this
      ensures contacts == DoPingAnswered(old(contacts), aor, address)
    {
      var i := Position(ListOf(contacts, aor), address);
      if i >= 0 {
        contacts := contacts[aor := contacts[aor][i := contacts[aor][i].(missedPings := 0)]];
      }
    }

    method PingMissed(aor: string, address: string, maxMissed: int) returns (emptied: bool)
      modifies this
      ensures contacts == DoPingMissed(old(contacts), aor, address, maxMissed)
      ensures emptied <==> ReportsEmptied(old(contacts), aor, address, maxMissed)
    {
      var at := Position(ListOf(contacts, aor), address);
      if at < 0 {
        return false;
      }
      var list := contacts[aor];
      var missed := list[at].missedPings + 1;
      list := list[at := list[at].(missedPings := missed)];
      contacts := contacts[aor := list];
      if missed < maxMissed {
        return false;
      }
      var kept := [];
      for j := 0 to |list|
        invariant kept == if j <= at then list[..j] else list[..at] + list[at + 1..j]
      {
        assert list[..j + 1] == list[..j] + [list[j]];
        assert j > at ==> list[at + 1..j + 1] == list[at + 1..j] + [list[j]];
        if j != at {
          kept := kept + [list[j]];
        }
      }
      assert kept == list[..at] + list[at + 1..];
      assert kept == Without(old(contacts)[aor], address);
      if |kept| == 0 {
        contacts := contacts - {aor};
        return true;
      }
      contacts := contacts[aor := kept];
      emptied := false;
    }
  }
}
