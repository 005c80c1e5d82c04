/** The Call-IDs of INVITEs the SBC rejected itself, remembered for a minute. */
module RejectedCalls {
  const TTL: int := 60 * 1_000_000_000

  datatype Rejected = Rejected(ids: map<string, int>, lastSweep: int)

  function Add(r: Rejected, id: string, now: int): Rejected {
    var r' := if now - r.lastSweep < TTL then r
              else Rejected(map i | i in r.ids && now - r.ids[i] < TTL :: r.ids[i], now);
    r'.(ids := r'.ids[id := now])
  }

  predicate Has(r: Rejected, id: string, now: int) { id in r.ids && now - r.ids[id] < TTL }

  class RejectedCallLog {
    var ids: map<string, int>
    var lastSweep: int

    constructor ()
      ensures ids == map[] && lastSweep == 0
    {
      ids, lastSweep := map[], 0;
    }

    method AddCall(id: string, isInvite: bool, now: int)
      modifies this
      ensures Rejected(ids, lastSweep) ==
              if isInvite then Add(old(Rejected(ids, lastSweep)), id, now) else old(Rejected(ids, lastSweep))
    {
      if !isInvite {
        return;
      }
      if now - lastSweep >= TTL {
        lastSweep := now;
        var todo := ids.Keys;
        ghost var was := ids;
        while todo != {}
          invariant todo <= was.Keys && lastSweep == now
          invariant ids == map i | i in was && (i in todo || now - was[i] < TTL) :: was[i]
          decreases todo
        {
          var i :| i in todo;
          if now - ids[i] >= TTL {
            ids := ids - {i};
          }
          todo := todo - {i};
        }
      }
      ids := ids[id := now];
    }

    method HasCall(id: string, now: int) returns (known: bool)
      ensures known == Has(Rejected(ids, lastSweep), id, now)
    {
      known := id in ids && now - ids[id] < TTL;
    }
  }

  // Runs: the rejections, oldest first, as (Call-ID, time).

  function After(adds: seq<(string, int)>): Rejected {
    if adds == [] then Rejected(map[], 0)
    else Add(After(adds[..|adds| - 1]), adds[|adds| - 1].0, adds[|adds| - 1].1)
  }

  predicate Ordered(adds: seq<(string, int)>) {
    && (forall i :: 0 <= i < |adds| ==> adds[i].1 >= TTL)
    && (forall i, j :: 0 <= i < j < |adds| ==> adds[i].1 <= adds[j].1)
  }

  /** Every entry is the last rejection of its Call-ID; only ones past their TTL are missing. */
  lemma EntriesAreLastRejections(adds: seq<(string, int)>, id: string, k: nat)
    requires Ordered(adds) && k < |adds| && adds[k].0 == id
    requires forall j :: k < j < |adds| ==> adds[j].0 != id
    ensures var ids := After(adds).ids;
            if id in ids then ids[id] == adds[k].1 else adds[|adds| - 1].1 - adds[k].1 >= TTL
  {
    var n := |adds| - 1;
    if k < n {
      EntriesAreLastRejections(adds[..n], id, k);
    }
  }

  lemma NoEntryWithoutRejection(adds: seq<(string, int)>, id: string)
    requires forall j :: 0 <= j < |adds| ==> adds[j].0 != id
    ensures id !in After(adds).ids
  {
    if adds != [] {
      NoEntryWithoutRejection(adds[..|adds| - 1], id);
    }
  }

  /** The sweep cannot be observed: a Call-ID is known exactly when its last
      rejection is less than the TTL ago. */
  lemma {:induction false} KnownIffRejectedWithinTtl(adds: seq<(string, int)>, id: string, now: int)
    requires Ordered(adds) && (adds != [] ==> now >= adds[|adds| - 1].1)
    ensures Has(After(adds), id, now) <==>
            exists k :: 0 <= k < |adds| && adds[k].0 == id && now - adds[k].1 < 60 * 1_000_000_000
  {
    if exists j :: 0 <= j < |adds| && adds[j].0 == id {
      var k := LastRejection(adds, id);
      EntriesAreLastRejections(adds, id, k);
    } else {
      NoEntryWithoutRejection(adds, id);
    }
  }

  lemma LastRejection(adds: seq<(string, int)>, id: string) returns (k: nat)
    requires exists j :: 0 <= j < |adds| && adds[j].0 == id
    ensures k < |adds| && adds[k].0 == id && forall j :: k < j < |adds| ==> adds[j].0 != id
  {
    k := |adds| - 1;
    while adds[k].0 != id
      invariant k < |adds| && (exists j :: 0 <= j <= k && adds[j].0 == id)
      invariant forall j :: k < j < |adds| ==> adds[j].0 != id
      decreases k
    {
      k := k - 1;
    }
  }

  /** The log stays small: right after a sweep, a minute or more after the last, it holds only Call-IDs
      rejected less than a minute ago. */
  lemma SweepForgets(r: Rejected, id: string, now: int, other: string)
    requires now - r.lastSweep >= 60_000_000_000
    ensures var after := Add(r, id, now);
            && after.lastSweep == now
            && (other in after.ids && other != id ==> now - after.ids[other] < 60_000_000_000)
  {
  }
}
