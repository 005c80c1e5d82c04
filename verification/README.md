# A verified model of the SBC

The Go session border controller in `sbc/` sits between agents' phones, SIP trunks and
FreeSWITCH. It forks INVITEs, keeps a call table, an affinity index and a cache of spoofed
callers, registers contacts and pings the NATed ones, bans sources that fail too often,
rewrites Contact, Route and CSeq headers, and spreads calls over FreeSWITCH instances. This
project models those parts in Dafny and proves what they keep over every run. It also
models two pieces the SBC must agree with: the web form that stores a trunk's address, and
the WAV reader and writer of the end-to-end tests.

`dafny verify dfyconfig.toml` checks everything.

## How it is built

| file | part of the system |
|---|---|
| `Text.dfy` | the functions of Go's strings and strconv packages that the rest uses, on ASCII text |
| `Fork.dfy`, `ForkMachine.dfy`, `ForkEnds.dfy` | the fork of an INVITE to an agent's contacts: what its outcome must be, its loop, the interleaving of branch goroutines, results channel and loop, and how it ends |
| `CallTables.dfy`, `CallLocal.dfy`, `CallMachine.dfy`, `CallGuarantees.dfy` | the proxy's three tables, one call's INVITE and BYE handlers as atomic steps, all calls together with the dispatcher's targets, and what that guarantees |
| `Dispatch.dfy` | the FreeSWITCH target list and its round robin |
| `IpBan.dfy`, `IpBanHistory.dfy`, `IpBanPicked.dfy`, `IpBanInARow.dfy`, `RejectedCalls.dfy` | bans, their sweep, what a ban costs and when one is certain, and the Call-IDs of rejected INVITEs |
| `Slices.dfy`, `Registrar.dfy`, `RegistrarRuns.dfy` | the registrar's lists, their in-place surgery, and what they stand for |
| `ContactHeader.dfy`, `ContactValues.dfy`, `Registering.dfy`, `RegisterOutcome.dfy` | the Contact header's parser and printer, what they make of well-formed values, and REGISTER from request to 200 |
| `RouteSet.dfy`, `Forwarding.dfy`, `DigestRetry.dfy` | route filtering, forwarded copies, CSeq translation |
| `ApiCache.dfy`, `ApiCacheRuns.dfy` | the internal API's caches and trunk networks, alone and under concurrent lookups |
| `TrunkAddress.dfy` | a trunk's outbound contact in the web form and in the SBC |
| `Wav.dfy`, `WavMix.dfy` | WAV bytes, and files with several channels |

Objects that the code updates are classes; each method's contract gives its whole result and
new state as a function of the old one, and the theorems are about those functions. Handlers
that run concurrently are state machines whose steps are what the code does atomically: a
lock held, a message received, a message sent. Theorems over runs quantify over every
sequence of enabled steps.

## Assumptions

- The clock does not run backwards and has left Go's zero time more than a `time.Duration`
  behind. `Fail` and `rejectedCalls.add` read the clock before they take their lock, so under
  contention even a good clock can be used out of order; `IpBan.SkewedClockExposesSweep`
  shows what that can expose.
- A Call-ID is not used for a new INVITE while the old call, one of its BYEs or a deferred
  deletion of its INVITE handler is still there (section 8.1.1.4 of RFC 3261).
  `CallTables.EarlyRetryLosesItsPin` shows what goes wrong otherwise.
- A spoofed caller is the user part of a SIP URI, so it has no ':'.
- Text is ASCII. `sip.ParseUri`, `net.ParseIP`, `net.ParseCIDR` and `IPNet.Contains` are
  functions given as parameters. So are whether a source is never banned, whether a contact
  is behind a NAT, and whether a request is authenticated.
- In the fork, a branch may end without reporting anything; the theorem that the loop is
  never left waiting supposes that each branch reports.

## Where the code does less than one might expect

Each of these is proved, with the exact condition where there is one.

- **Lifetimes overflow.** The lifetime a client reads from the 200 is the one stored if and
  only if it is at most 9223372036 seconds; from the next second on the count of nanoseconds
  wraps, and the contact is stored already expired (`Registering.RegistrationAgrees`,
  `Registering.LongRegistrationIsDeadOnArrival`). A NATed UDP contact under a limit cannot get there.
- **Contact round trip.** The granted lifetime can be read back from the Contact itself
  unless its '<' is not closed, or a quote is left open in a parameter that is kept. Setting
  a lifetime again then appends instead of overwriting. The Expires header still carries it.
- **Bans.** Of 2·maxFailures−1 failures in a row of one source inside less than one window,
  one falls in or starts a ban; for maxFailures 2 or more, one fewer is enough if and only if
  a first ban, the shorter of banTime and 24 h, lasts at least a window
  (`IpBanInARow.OneFewerSufficesIff`). For failures picked from among others of the source,
  2·maxFailures−1 are enough if and only if bans are long enough for the window. Write B for
  the shorter of banTime and 24 h: always for maxFailures 1; for 3 or more, B must be at least
  the window less 1 ns; for 2, twice banTime, or 24 h if that is less, must be at least that,
  and a window of 24 h and 1 ns with a banTime of 12 h is excepted
  (`IpBanPicked.PickedFailuresMeetABanIff`, `IpBanPicked.ADayAddsOneCase`).
- **The affinity index and the spoof cache** hold, besides what live calls and INVITEs in
  flight own, exactly the entries of calls that a cleanup has deleted from the call table and
  has not come to yet. `CallGuarantees.PinOutlivesTheCall` and
  `CallGuarantees.SpoofOutlivesTheCall` are runs that meet this.
- **ACK direction** is decided when the ACK arrives, by asking whether its source is a
  dispatcher target. It is right if and only if the answer is the one the INVITE got, or both
  directions lead to one address; otherwise the ACK goes back to where the INVITE came from,
  as in the run of `CallGuarantees.RemovedFreeSwitchGetsItsAckBack`.
- **CANCEL.** After a decision a sibling whose INVITE is out and that has no final flag is left
  ringing if and only if its goroutine had not stored its branch by its turn: the INVITE goes
  out inside the call whose result is stored, so neither an INVITE sent later nor one just
  sent is cancelled (`ForkEnds.RingingSiblingIsCancelledIff`, `ForkEnds.JustSentIsNotCancelled`).
- **Overlapping calls of one user** are sure to share a FreeSWITCH if and only if all the
  user's calls are at one when the affinity index is read for the next. The index is read
  before the call is pinned in it, so calls made at once can split
  (`CallGuarantees.NextCallSharesIff`, `CallGuarantees.CallsMadeAtOnceCanSplit`).
- **Route filter ports** are fixed at 5060 for the public address and 5065 for the private
  one. Our own Record-Routes come off if and only if these are the configured ports, or both
  addresses are the same and each port is one of the two.
- **CSeq offset.** FreeSWITCH's ACK carries the authenticated INVITE's number if and only if
  that number is at least FreeSWITCH's own.
- **Cache lifetimes** count from the making of the entry, not from the server's reply: every
  cached answer was sent less than its lifetime ago if and only if no time passes between a
  reply and its entry; with a delay of at most d it was sent less than the lifetime and d ago
  (`ApiCacheRuns.FreshFromArrivalIff`).
- **Round robin** visits each of n targets once in n selections unless the 64-bit counter
  wraps inside the round and n does not divide 2^64.
- **Trunk addresses.** Normalising a stored value changes nothing unless its host is named
  sip or sips and has a port; the value is then refused.
- **WAV.** The writer refuses rates from 2^31 up, because the byte rate no longer fits. The
  reader takes back every file written except one without samples or with rate 0.

## Model

| member | source | states |
|---|---|---|
| `Fork.RunLoop` | sbc/proxy.go:538-632 | In plain response codes: the loop sends a 100, the first other response below 200, and one final response (the first 2xx whole, or the first 6xx without its body; without either the lowest 3xx-5xx, the first on a tie; without any a 480); it drops exactly the contacts whose branches failed, and the winner is the branch of that 2xx. |
| `Fork.AnsweredIsRight` | sbc/proxy.go:566-632 | A log that meets the specification is the right one in terms of the codes alone. |
| `Fork.MeetsSpecIsRight` | sbc/proxy.go:538-632 | So a run that meets it shows the right log, drops and winner. |
| `Fork.VerdictIsUnique` | sbc/proxy.go:566-632 | The specification (first 2xx or 6xx, else the lowest 3xx-5xx, earliest on a tie, else 480) leaves no choice. |
| `Fork.LoopTracksReports` | sbc/proxy.go:533-586 | After any reports, pending, relayedProvisional and bestFinal say exactly how many terminal reports are missing, whether the first provisional went up, and which failure is lowest. |
| `Fork.DriveMeetsSpec` | sbc/proxy.go:538-632 | A run in any order of arrival that can finish ends with the specified log, winner and dropped contacts, having taken the reports up to the first decider or n terminal ones. |
| `ForkMachine.StepKeepsInv` | sbc/proxy.go:452-632 | Every step of a branch goroutine, the loop or the CANCEL pass keeps the account of reports and the agreement of the loop's variables with them. |
| `ForkMachine.RunKeepsInv` | sbc/proxy.go:452-632 | So does every interleaving. |
| `ForkMachine.ExactlyOneFinal` | sbc/proxy.go:538-632 | Over every interleaving, a handler that returned sent our 100, at most one provisional, then exactly one final response, last: the log is the right one, in plain codes, for the reports it took. |
| `ForkMachine.NoFinalBefore` | sbc/proxy.go:538-632 | Until it answers or returns, nothing it sent is final. |
| `ForkMachine.DecidingPassIsExact` | sbc/proxy.go:498-526 | After a decision, CANCEL went to exactly the siblings that were stored and had no final flag when their turn came, never to the branch that decided, which was a stored one. |
| `ForkEnds.HandlerReturns` | sbc/proxy.go:533-632 | Whatever has happened, once every branch has reported the handler's own steps lead to its return, in at most as many as there are queued reports and branches, and four; and it always has one. |
| `ForkEnds.RingingSiblingIsCancelledIff` | sbc/proxy.go:452-526 | After a decision, a sibling with its INVITE out and no final flag set was sent a CANCEL iff its branch was stored when its turn came. |
| `ForkEnds.JustSentIsNotCancelled` | sbc/proxy.go:459-466 | A run in which a sibling's INVITE is out when its turn comes, its branch is stored right after, and the phone rings on without a CANCEL. |
| `CallTables.SavedPins` | sbc/proxy.go:1365-1377 | Saving pins exactly the listed users of that one call, unless the address is empty, and changes no other pin. |
| `CallTables.DroppedPins` | sbc/proxy.go:1379-1395 | Deleting unpins exactly the listed users of that one call and leaves no empty inner map. |
| `CallTables.EarlyRetryLosesItsPin` | sbc/proxy.go:269-275 | With a Call-ID reused before the deferred deletion, the retry loses its pin; in the other order it keeps it. |
| `CallTables.SpoofKeyIsInjective` | sbc/proxy.go:1702-1704 | For callers without ':' a cache key names one call and one caller. |
| `CallTables.SpoofKeyCollides` | sbc/proxy.go:1702-1704 | Otherwise two calls can share a key. |
| `CallTables.Proxy.SaveAffinity` | sbc/proxy.go:1365-1377 | The new index is the old one with the call's pins saved. |
| `CallTables.Proxy.DeleteAffinity` | sbc/proxy.go:1379-1395 | The new index is the old one with the call's pins dropped. |
| `CallTables.Proxy.CleanupCall` | sbc/proxy.go:1397-1405 | All three tables forget the call, and only it. |
| `CallTables.Proxy.SelectTargetForUsers` | sbc/proxy.go:1353-1363 | The target carries a pinned call of the first listed user that has one, without touching the dispatcher; only if none has, the dispatcher chooses. |
| `CallLocal.StepKeepsInv` | sbc/proxy.go:253-363 | Each step of one call's INVITE and BYE handlers keeps: a live or in-flight call owns exactly its rows, and a cleaned-up one none that no cleanup still owes. |
| `CallLocal.ForkStep` | sbc/proxy.go:380-632 | The fork inside an INVITE to an agent keeps its own invariant, and a winner is one of the contacts. |
| `CallMachine.StepKeepsInv` | sbc/proxy.go:324-346 | No step of any handler of any call, no INVITE coming in and no change of the dispatcher's targets breaks the agreement of the three tables with the calls. |
| `CallMachine.ReachableInv` | sbc/proxy.go:253-1045 | Every reachable state satisfies it. |
| `CallGuarantees.AckGoesToTheAnswererIff` | sbc/proxy.go:978-1045 | From the 2xx sent upstream until a cleanupCall an ACK finds its dialog, and goes to whoever answered (the winning contact, the trunk or FreeSWITCH) iff its source is a dispatcher target now as the INVITE's was then, or both directions coincide; otherwise it goes back to the INVITE's source. Its CSeq number is left alone unless FreeSWITCH sends it on a call with an offset. |
| `CallGuarantees.AckReachesWhoeverAnswered` | sbc/proxy.go:978-1045 | So the caller's ACK, from any port of its address, reaches whoever answered if that address was neither added nor removed as a target since the INVITE. |
| `CallGuarantees.RemovedFreeSwitchGetsItsAckBack` | sbc/proxy.go:979-981 | A run in which FreeSWITCH is removed between INVITE and ACK, and its ACK is sent back to it. |
| `CallGuarantees.AckCarriesAuthenticatedNumberIff` | sbc/proxy.go:1020-1024 | With the offset stored for the call, FreeSWITCH's ACK reaches the trunk with the authenticated INVITE's number iff that is at least its own (section 13.2.2.4 of RFC 3261). |
| `CallGuarantees.AnnouncedStateIsRight` | sbc/proxy.go:588-605 | Before the 2xx goes up the call's entry holds, field by field: for an agent the address, URI and transport of the contact whose branch answered with that 2xx, the first decision taken; for a caller its address, transport and users; for a trunk its address and the caller it spoofs; always the right FreeSWITCH. |
| `CallGuarantees.RecordWritesTheEntry` | sbc/proxy.go:324-346 | The step that writes it takes the URIs from the messages, except for an agent, and the offset from the two CSeq numbers, and changes no other entry. |
| `CallGuarantees.AnswererIsTheWinningBranch` | sbc/proxy.go:588-605 | Who is remembered to have answered: the winning contact, FreeSWITCH or the trunk. |
| `CallGuarantees.AffinityIsExact` | sbc/proxy.go:1353-1405 | In every reachable state the triples of the affinity index are exactly those of calls in the table, of INVITEs in flight, and of calls that a cleanup has deleted from the table while none has come to the index; no inner map is empty. |
| `CallGuarantees.PinOutlivesTheCall` | sbc/proxy.go:1397-1405 | A run in which a user is still pinned by a call that is in no table. |
| `CallGuarantees.InFlightRows` | sbc/proxy.go:269-275 | What an INVITE in flight holds, path by path: its users or agent pinned to its FreeSWITCH; towards a trunk no pin, and the spoofed caller cached with the trunk's number. |
| `CallGuarantees.SpoofCacheIsExact` | sbc/proxy.go:677-687 | The spoof cache's entries are exactly the callers of live and in-flight trunk calls, and of calls whose cleanup has begun and not come to it. |
| `CallGuarantees.SpoofOutlivesTheCall` | sbc/proxy.go:1397-1405 | A run in which a caller is still cached for a call that is in no table. |
| `CallGuarantees.ChosenTargetCarriesACall` | sbc/proxy.go:1353-1363 | In every reachable state the target chosen for a list of users carries a call of the first of them that has one; it is one of the dispatcher's only if none has. |
| `CallGuarantees.PinnedFollowsTheUsersCalls` | sbc/proxy.go:1353-1363 | What the affinity index gives an INVITE for its users: a FreeSWITCH of the first of them with a call, nothing iff none has one. |
| `CallGuarantees.NextCallSharesIff` | sbc/proxy.go:261-269 | A user's next call is sure to be given a FreeSWITCH iff the user has calls and all are there when the index is read. |
| `CallGuarantees.OverlappingCallsShare` | sbc/proxy.go:261-269 | An INVITE for which the index was read in such a state is pinned to that FreeSWITCH, whatever happens between reading and pinning. |
| `CallGuarantees.CallsMadeAtOnceCanSplit` | sbc/proxy.go:261-269 | A run in which two INVITEs of one user both read the index before either is pinned, and end at two FreeSWITCH instances. |
| `CallGuarantees.UserInCallIsPinned` | sbc/proxy.go:1353-1363 | A user with a live or in-flight call is never left to the dispatcher. |
| `CallGuarantees.QuietSystemIsEmpty` | sbc/proxy.go:1397-1405 | With every call ended and every handler returned, the three tables are empty. |
| `Dispatch.Dispatcher.AddTarget` | sbc/dispatcher.go:23-33 | A new target goes last; a known one changes nothing; no duplicates. |
| `Dispatch.Dispatcher.RemoveTarget` | sbc/dispatcher.go:35-45 | The target is gone, the others keep their order. |
| `Dispatch.Dispatcher.SelectTarget` | sbc/dispatcher.go:47-55 | The counter moves on by one modulo 2^64 and selects; with no target nothing moves. |
| `Dispatch.Dispatcher.IsFromFS` | sbc/dispatcher.go:57-66 | True iff some target is that address with port 5070. |
| `Dispatch.WithoutIsSplice` | sbc/dispatcher.go:38-44 | Removing a target is one splice at its only occurrence. |
| `Dispatch.WithoutKeepsNoDuplicates` | sbc/dispatcher.go:35-45 | Removal keeps the list duplicate-free and loses nothing else. |
| `Dispatch.AddThenRemove` | sbc/dispatcher.go:23-45 | Removing what was just added gives the list back. |
| `Dispatch.SourceIPOf` | sbc/proxy.go:1247-1257 | The source IP of an IPv4 address with its port is the address without it. |
| `Dispatch.BracketedSourceIPOf` | sbc/proxy.go:1247-1257 | The source IP of an IPv6 address in brackets with its port is the address without either. |
| `Dispatch.NotSplitSourceIP` | sbc/proxy.go:1252-1255 | A source with no colon, with a stray bracket, or with several colons outside brackets stands for itself. |
| `CallTables.StripSipOf` | sbc/proxy.go:1744-1751 | A target's address is what follows the scheme, with its port. |
| `CallTables.StripSipOfHost` | sbc/proxy.go:1744-1751 | Without a port it gets 5060. |
| `Dispatch.Fairness` | sbc/dispatcher.go:47-55 | Over any k selections without a wrap each of n targets is chosen floor(k/n) or ceil(k/n) times. |
| `Dispatch.RoundVisitsEachOnceIff` | sbc/dispatcher.go:47-55 | n selections hit n different targets iff the counter does not wrap inside them, or wraps at once, or n divides 2^64. |
| `IpBan.DoubledBan` | sbc/ip_ban.go:101-109 | The loop computes min(banTime * 2^bans, 24 h) and forms no value of 48 h or more unless banTime is one. |
| `IpBan.IPBan.Fail` | sbc/ip_ban.go:73-110 | The new table: swept if due, this source's record counted, banned or left alone, no other changed. |
| `IpBan.IPBan.SweepSources` | sbc/ip_ban.go:115-126 | Deletes exactly the records with nothing left to remember, at most once a window. |
| `IpBan.SweepForgets` | sbc/ip_ban.go:115-126 | After a failure a window or more after the last sweep, every other record left is of a source in an open window or with a ban that ended less than 24 h ago or has not. |
| `IpBan.SameFail` | sbc/ip_ban.go:82-110 | A forgotten source and the record it had are treated alike by the next failure. |
| `IpBan.StepKeepsSimulation` | sbc/ip_ban.go:61-126 | Each Fail or Banned keeps the list with the sweep and the one without in step, with the same answer. |
| `IpBan.SweepIsUnobservable` | sbc/ip_ban.go:61-126 | Over any run with an ordered clock, every answer of Banned and every ban end is as if nothing were ever deleted. |
| `IpBan.SkewedClockExposesSweep` | sbc/ip_ban.go:73-82 | With failures counted out of clock order the two can differ. |
| `IpBanHistory.BanIsPaidFor` | sbc/ip_ban.go:82-110 | Each ban is paid for by exactly maxFailures undropped failures of the source inside less than one window, all after its previous ban. |
| `IpBanHistory.ChargedOnce` | sbc/ip_ban.go:82-110 | No failure pays for two bans. |
| `IpBanHistory.EnoughFailuresBringABan` | sbc/ip_ban.go:82-110 | Of 2 * maxFailures - 1 failures in a row of one source inside less than one window, one falls in or starts a ban. |
| `IpBanInARow.OneFewerSufficesIff` | sbc/ip_ban.go:82-110 | For every configuration with maxFailures 2 or more: 2 * maxFailures - 2 failures in a row inside less than one window always meet a ban iff a first ban lasts at least a window. |
| `IpBanInARow.RowIsTooLong` | sbc/ip_ban.go:82-110 | With such bans an unpunished stretch inside less than one window holds at most 2 * maxFailures - 3 failures. |
| `IpBanPicked.PickedFailuresMeetABanIff` | sbc/ip_ban.go:82-110 | Any 2 * maxFailures - 1 failures of one source inside less than one window, picked in whatever way from its failures, include one that falls in or starts a ban, iff bans are long enough for the window: the exact condition for every configuration. |
| `IpBanPicked.ADayAddsOneCase` | sbc/ip_ban.go:90-110 | What the reset after 24 h of quiet adds to that condition: one configuration. |
| `IpBanPicked.LongBansCatchAll` | sbc/ip_ban.go:82-110 | Bans of at least a window less 1 ns catch all picked failures, for every maxFailures. |
| `IpBanPicked.ThreeSparedNeedShortBans` | sbc/ip_ban.go:82-110 | For maxFailures 2, three failures spared inside less than one window need a second ban shorter than it. |
| `IpBanPicked.ShortBansLetPickedFailuresPass` | sbc/ip_ban.go:82-110 | Three failures picked from five that two short bans pass by. |
| `IpBanHistory.NextBanDoubles` | sbc/ip_ban.go:90-110 | The next ban lasts twice the last, at most 24 h, unless 24 h passed since the last ended; so bans never shrink before that. |
| `IpBanHistory.BanAfterQuiet` | sbc/ip_ban.go:90-110 | A source's first ban, and one 24 h or more after the end of its last, lasts banTime, at most 24 h. |
| `IpBanHistory.BannedFollowsHistory` | sbc/ip_ban.go:61-126 | After any run of the list with its sweep, Banned answers what the source's own failure times say, so the above holds of the running list. |
| `RejectedCalls.RejectedCallLog.AddCall` | sbc/ip_ban.go:169-188 | An INVITE's Call-ID is remembered with its time, entries past their minute are swept at most once a minute; other requests change nothing. |
| `RejectedCalls.KnownIffRejectedWithinTtl` | sbc/ip_ban.go:161-195 | A Call-ID is known iff a rejection of it is less than a minute ago: the sweep is unobservable. |
| `RejectedCalls.SweepForgets` | sbc/ip_ban.go:169-188 | After a sweep only Call-IDs rejected less than a minute ago are left. |
| `Slices.RemoveAt` | sbc/registrar.go:65-76 | append(list[:i], list[i+1:]...) in place removes one element and keeps the rest in order. |
| `Slices.KeepInPlace` | sbc/nat_keepalive.go:146-152 | Filtering into list[:0] leaves exactly the order-preserving filter. |
| `Slices.FilterKeepsExactly` | sbc/nat_keepalive.go:146-152 | The filter holds the elements that satisfy the test and no others. |
| `Slices.FilterIsSubsequence` | sbc/nat_keepalive.go:146-152 | It is the subsequence at the positions of all those elements, in order. |
| `Registrar.ContactStore.Register` | sbc/registrar.go:36-56 | Replaces the contact with that address in place, or appends. |
| `Registrar.ContactStore.UnregisterContact` | sbc/registrar.go:65-76 | Removes that address only; the AOR's entry stays even when empty. |
| `Registrar.ContactStore.LookupAll` | sbc/registrar.go:79-91 | The live contacts, in order. |
| `Registrar.ContactStore.LookupByType` | sbc/registrar.go:94-103 | The live contacts of that type, in order. |
| `Registrar.ContactStore.HasSourceIP` | sbc/registrar.go:111-123 | True iff some live contact of some AOR has that source IP. |
| `Registrar.ContactStore.Reap` | sbc/registrar.go:144-165 | Every list is reduced to its live contacts, empty AORs go, and the AORs reported are those that went. |
| `Registrar.ContactStore.PingMissed` | sbc/nat_keepalive.go:135-159 | Counts the miss or removes the contact at the limit; reports whether the AOR was left with none. |
| `RegistrarRuns.OperationRefinesMap` | sbc/registrar.go:36-165 | Every operation keeps addresses unique per AOR and does to the lists what it does to the map from (AOR, address) to contact, cell by cell. |
| `RegistrarRuns.RegisteringKeepsOrder` | sbc/registrar.go:36-56 | A contact registered again keeps its place in its AOR's list; a new one comes last. |
| `RegistrarRuns.RunsStayUnique` | sbc/registrar.go:36-165 | Addresses are unique per AOR after any run. |
| `RegistrarRuns.WithoutIsFilter` | sbc/registrar.go:65-76 | In a list with unique addresses, splicing one out is filtering by address. |
| `RegistrarRuns.ReapIsUnobservable` | sbc/registrar.go:144-165 | Reaping changes no lookup then or later, and leaves only non-empty lists of live contacts. |
| `RegistrarRuns.StoredContactsCountMisses` | sbc/nat_keepalive.go:124-169 | While a contact is stored its count is the misses since its last answer or registration, below maxMissed. |
| `RegistrarRuns.MissedPingRemovesAtTheLimit` | sbc/nat_keepalive.go:135-159 | A miss removes the contact iff it is the maxMissed-th in a row, removes no other, and reports true iff it removed the AOR's last. |
| `ContactHeader.SplitContact` | sbc/proxy.go:1525-1561 | The address and the parameters between unquoted ';', trimmed, blanks left out. |
| `ContactHeader.ContactWithExpires` | sbc/proxy.go:1495-1506 | Prints the address, the parameters other than expires in order, and the lifetime. |
| `ContactHeader.ContactExpires` | sbc/proxy.go:1510-1519 | The value of the first expires parameter, in any case, without its quotes. |
| `ContactHeader.ContactRoundTrip` | sbc/proxy.go:1495-1561 | Splitting what was printed gives the original address, the original parameters without any expires, and the lifetime. |
| `ContactHeader.RegrantOverwritesIffRereadable` | sbc/proxy.go:1495-1561 | Granting e' after e equals granting e' alone iff the address is closed and no open quote is left in the parameters kept. |
| `ContactHeader.ReadBackIsGrantOrNothing` | sbc/proxy.go:1495-1519 | From the printed Contact one reads the lifetime granted or, exactly for the other Contacts, no expires at all. |
| `ContactValues.ContactReads` | sbc/proxy.go:1525-1561 | A Contact made of a bracketed URI and any flags, pairs and quoted strings is split into exactly these, a ';' between quotes included. |
| `ContactValues.BareContactReads` | sbc/proxy.go:1535-1560 | Without angle brackets the URI ends at the first semicolon and all parameters are the header's. |
| `ContactValues.ParamReads` | sbc/proxy.go:1510-1519 | Each is read as its name and its value, without the quotes. |
| `ContactValues.ExpiresIsRead` | sbc/proxy.go:1510-1519 | The lifetime it asks for is the value of its first parameter named expires, in any case; none without one. |
| `ContactValues.BareExpiresIsRead` | sbc/proxy.go:1510-1519 | The same lifetime is read from a Contact without brackets. |
| `ContactValues.GrantIsWritten` | sbc/proxy.go:1495-1506 | What is echoed is the same Contact, with all parameters named expires replaced by one with the lifetime granted. |
| `Registering.HandleRegister` | sbc/proxy.go:146-204 | Reply and new lists are those the following rows are about, for every request. |
| `RegisterOutcome.RequestedIs` | sbc/proxy.go:1479-1489 | The lifetime asked for: the Contact's first expires parameter if it is a decimal number, whatever the Expires header says; otherwise the header's number; otherwise 300. |
| `RegisterOutcome.RequestedOfParts` | sbc/proxy.go:1479-1519 | The same from the parts of a well-formed Contact. |
| `RegisterOutcome.ZeroUnregisters` | sbc/proxy.go:146-170 | A lifetime of 0 is answered as an unregistration; the contact at the source is gone, with Contact "*" all of the AOR, and no other. |
| `RegisterOutcome.ZeroInContactUnregisters` | sbc/proxy.go:157-170 | So is an expires=0 in the Contact alone, whatever the Expires header says. |
| `RegisterOutcome.OthersRegister` | sbc/proxy.go:171-204 | Any other lifetime, lowered to the limit for a NATed UDP contact, is announced twice in the reply and stored, field by field, for the AOR at the source; no other contact changes. |
| `RegisterOutcome.UriInBrackets` | sbc/proxy.go:1563-1577 | The URI stored is what stands in the first angle brackets. |
| `RegisterOutcome.UriBare` | sbc/proxy.go:1563-1577 | Without brackets it is what comes before the first ';'. |
| `Registering.ClientReadsTheGrant` | sbc/proxy.go:1479-1519 | For every Contact value, malformed ones included, the 200's Contact carries the lifetime granted in decimal or no expires at all, and then its Expires header does: a client reads the grant. |
| `Registering.RegistrationAgrees` | sbc/proxy.go:146-204 | The lifetime read back is positive, within the NAT limit, and the one stored iff it is at most 9223372036 s. |
| `Registering.LongRegistrationIsDeadOnArrival` | sbc/proxy.go:168-190 | Above that, up to twice it, the 200 grants the lifetime but the stored contact is already expired. |
| `Registering.AnyLifetimeCanBeAsked` | sbc/proxy.go:1479-1489 | A client that is not behind a NAT can ask for any such lifetime. |
| `RouteSet.FilterRouteValueForHop` | sbc/proxy.go:1436-1469 | The text is the joined selection of the value's entries. |
| `RouteSet.SelectIsSubsequence` | sbc/proxy.go:1445-1466 | The selection is the order-preserving subsequence of all entries that are not our hops or are the kept hop. |
| `RouteSet.StaysIff` | sbc/proxy.go:1452-1464 | An entry goes iff its hop is the public address with 5060 or the private one with 5065, and not the hop to keep. |
| `RouteSet.RouteHopIs` | sbc/proxy.go:1417-1434 | An entry's hop is the host and port of its URI, 5060 without one, brackets around an IPv6 host, and nothing if it does not parse. |
| `RouteSet.FilterSelects` | sbc/proxy.go:1436-1469 | Splitting the filtered text again gives exactly the selected entries. |
| `RouteSet.FilterIsIdempotent` | sbc/proxy.go:1436-1469 | Filtering twice is filtering once, text for text. |
| `RouteSet.HeadersFilterTogether` | sbc/proxy.go:1159-1174 | Filtering header by header selects from the whole route set. |
| `RouteSet.SeparateOrJoinedHeaders` | sbc/proxy.go:1159-1174 | It does not matter whether the route set came in one header or several. |
| `RouteSet.OwnRouteStrippedIff` | sbc/proxy.go:1196-1211 | Our Record-Route entry is stripped iff it names the public address with port 5060 or the private one with 5065. |
| `RouteSet.OwnHopsComeOffIff` | sbc/proxy.go:1196-1211 | Adding our two headers and filtering returns the foreign entries unchanged iff the configured addresses and ports are those the filter looks for. |
| `RouteSet.OwnHopsMatchIff` | sbc/proxy.go:1436-1466 | They are iff the ports are 5060 and 5065, or the two addresses are one and each port is either. |
| `RouteSet.OutgoingInterfaceFirst` | sbc/proxy.go:1196-1211 | Of our two headers the first names the interface the request leaves by, private towards FreeSWITCH, the second the other; those of the request follow. |
| `RouteSet.RecordRouteText` | sbc/proxy.go:1197-1198 | What such a header says, with its lr. |
| `Forwarding.BuildForward` | sbc/proxy.go:1151-1189 | A fresh copy with the headers forwarded, Route filtered and Max-Forwards one lower, or null if that is negative; no existing object changes. |
| `Forwarding.CopyCountsDown` | sbc/proxy.go:1178-1186 | The copy has one Max-Forwards, one lower than the request's, 70 without one, and no Content-Length; a request whose Max-Forwards is 0 is not forwarded. |
| `Forwarding.OtherHeadersGoOn` | sbc/proxy.go:1155-1178 | Every header but Route, Max-Forwards and Content-Length goes on unchanged, in order. |
| `Forwarding.RoutesAreFiltered` | sbc/proxy.go:1159-1174 | The copy's Route headers are the request's, filtered, without the empty ones. |
| `Forwarding.CopyKeepsCSeq` | sbc/proxy.go:1151-1189 | The copy carries the request's CSeq number. |
| `Forwarding.ShiftCSeq` | sbc/proxy.go:52-56 | The CSeq number of this request moves by the offset modulo 2^32. |
| `Forwarding.ForwardFromFS` | sbc/proxy.go:848-856 | FreeSWITCH's request within a call goes out with the translated number, and its own object is untouched. |
| `DigestRetry.AnswerChallenge` | sbc/proxy.go:721-763 | The offset recorded is the authenticated copy's number over FreeSWITCH's own, whose request is unchanged. |
| `DigestRetry.TrunkDialog` | sbc/proxy.go:721-763 | FreeSWITCH's INVITE, ACK and other requests of a challenged dialog, as objects and in any order: all numbers the trunk sees move by one offset without a wrap, compare as they did, equal ones stay equal, the ACK's is the authenticated one iff that is at least FreeSWITCH's own, no object of FreeSWITCH changes, and the relayed 200 carries its number. |
| `DigestRetry.DialogKeepsItsOrder` | sbc/proxy.go:848-856 | The same of the messages, for numbers below 2^31 (sections 12.2.1.1 and 13.2.2.4 of RFC 3261). |
| `DigestRetry.OffsetFromTheCopyIsUseless` | sbc/proxy.go:736-755 | Why the number is read before the retry: from the raised copy the offset would be 0. |
| `DigestRetry.CopyResponseHeaders` | sbc/proxy.go:1219-1241 | The relayed response is the one the following rows are about. |
| `DigestRetry.RelayCarriesTheRest` | sbc/proxy.go:1219-1229 | Every header but seven arrives, in order, after those of our own response: Contact, Record-Route and all others. |
| `DigestRetry.RelayCarriesTheType` | sbc/proxy.go:1230-1233 | The first Content-Type arrives, once; the Content-Length does not. |
| `DigestRetry.RelayCarriesTheTo` | sbc/proxy.go:1234-1240 | The To is the response's first; ours stays only if it has none. |
| `DigestRetry.RelayKeepsFreeSwitchsHeaders` | sbc/proxy.go:1219-1241 | Responses to FreeSWITCH keep its own Via, From, Call-ID and CSeq, and take the far end's To. |
| `ApiCache.InternalAPI.GetUserPassword` | sbc/api.go:69-110 | A live entry answers. Otherwise: not found iff the status is 404, the password iff the status is 200 and the body has one, else an error; only a password is cached, for 300 s, and nothing else is left under the key. |
| `ApiCache.InternalAPI.GetSIPTrunk` | sbc/api.go:112-151 | The same for trunks: a 404 is cached for 60 s, a trunk for 300 s, and its networks are learned; after any other reply nothing is cached for the number. |
| `ApiCache.InternalAPI.RememberTrunkNets` | sbc/api.go:153-167 | The networks grow by the parsable CIDRs not yet known. |
| `ApiCache.InternalAPI.IsTrunkIP` | sbc/api.go:171-184 | True iff the text is an IP inside some network learned. |
| `ApiCache.TrunkIpIffLearned` | sbc/api.go:153-184 | After any lists learned, an IP is a trunk's iff some valid CIDR in any of them contains it. |
| `ApiCache.TrunkIpIsForever` | sbc/api.go:25-28 | Learning more never takes a trunk IP away. |
| `ApiCacheRuns.StepKeepsInv` | sbc/api.go:69-151 | Every load, check, delete, reply and store of concurrent lookups keeps each entry backed by a reply of the server for its key. |
| `ApiCacheRuns.EveryAnswerIsFresh` | sbc/api.go:69-151 | Over every interleaving, an answer is the server's reply to this lookup, or a reply whose entry was made less than its lifetime ago (5 minutes, 1 for an unknown trunk); never a cached error. |
| `ApiCacheRuns.LifetimesAre` | sbc/api.go:53-58 | In seconds: 300 for a password or a trunk, 60 for an unknown number; an unknown user is never answered from the cache. |
| `ApiCacheRuns.ChangeTakesEffect` | sbc/api.go:53-58 | Once the server answers something new for a key, the cache does too after five minutes and the delay between a reply and its entry. |
| `ApiCacheRuns.AnswersAreReceivedWithin` | sbc/api.go:69-151 | If no reply is held longer than d before its entry is made, a cached answer was sent less than its lifetime and d ago. |
| `ApiCacheRuns.FreshFromArrivalIff` | sbc/api.go:105-108 | Every cached answer, over all such runs, was sent less than its lifetime ago iff d is 0. |
| `ApiCacheRuns.LifetimeCountsFromTheEntry` | sbc/api.go:105-108 | A run whose cached answer is five minutes old, counted from the reply. |
| `ApiCacheRuns.AloneIsTheCall` | sbc/api.go:69-110 | Uninterrupted, the steps of a lookup do what the lookup as one call does. |
| `TrunkAddress.AcceptedValuesAreAddresses` | packages/web-app/src/routes/app/[subdomain]/sip-trunks/schema.ts:14-64 | The values the form can store are exactly the valid hosts, and host:port with a port from 1 to 65535 without leading zeros. |
| `TrunkAddress.NumericHosts` | packages/web-app/src/routes/app/[subdomain]/sip-trunks/schema.ts:53-57 | Digits and dots are a host iff they are four numbers up to 255 of one to three digits. |
| `TrunkAddress.NamedHosts` | packages/web-app/src/routes/app/[subdomain]/sip-trunks/schema.ts:58-63 | Anything else is a host iff it is at most 253 characters of labels of 1 to 63 letters, digits and inner hyphens, the last not all digits. |
| `TrunkAddress.SchemeIsDropped` | packages/web-app/src/routes/app/[subdomain]/sip-trunks/schema.ts:23-27 | The sip: form of an address is stored without the prefix. |
| `TrunkAddress.SbcReadsBack` | sbc/proxy.go:1771-1781 | The SBC splits a stored value into exactly that host and port, 5060 for a bare host. |
| `TrunkAddress.NormalizeTwice` | packages/web-app/src/routes/app/[subdomain]/sip-trunks/schema.ts:14-48 | Normalising a stored value changes nothing iff its host is not named sip or sips with a port; otherwise it is refused, and why. |
| `TrunkAddress.OtherSchemeIsRefusedIff` | packages/web-app/src/routes/app/[subdomain]/sip-trunks/schema.ts:35-37 | An address with one colon is refused for its scheme iff letters, digits, + and - beginning with a letter stand before the colon and something other than digits after it. |
| `TrunkAddress.HostNamedSip` | packages/web-app/src/routes/app/[subdomain]/sip-trunks/schema.ts:23-37 | The exception is met, with any port: "sip:sip:5060" is stored as "sip:5060", which is then refused. |
| `Wav.WriteWavSamples` | e2e/utils/audio.ts:142-181 | The bytes written, for every sample array and rate; a range error iff a header field does not fit. |
| `Wav.ReadWavSamples` | e2e/utils/audio.ts:87-137 | What is read from every buffer, errors included; it always ends. |
| `Wav.FindData` | e2e/utils/audio.ts:99-121 | The chunk loop finds the first data chunk and the last format before it, clamped to the buffer, on every buffer. |
| `Wav.WriteThenRead` | e2e/utils/audio.ts:87-181 | A file written reads back as the same samples and rate, unless there are none or the rate is 0: then it is refused. |
| `Wav.UnknownChunksAreSkipped` | e2e/utils/audio.ts:106-121 | A chunk of another kind before the others makes no difference to what is read. |
| `WavMix.FileReads` | e2e/utils/audio.ts:106-126 | Channels, rate and bits are taken from their places in the format chunk, whatever its other entries. |
| `WavMix.InterleavedIsMixed` | e2e/utils/audio.ts:126-136 | A file with any number of 16-bit channels is read as the mean of each frame, to the nearest integer, halves up. |

## Left out

- IpBanHistory.EnoughFailuresBringABan: about failures in a row of the source; failures picked from among others are the subject of IpBanPicked.
- CallGuarantees.AffinityIsExact: a call being cleaned up can have triples left, because cleanupCall deletes from its three tables one after the other; the lemma says exactly when.
- ApiCacheRuns.EveryAnswerIsFresh: counts an entry's age from its making; the age of the reply itself has no bound in the code.
- Registering.RegistrationAgrees: stops at 9223372036 s, above which the stored lifetime wraps.
- Wav.WriteWavSamples: does not model Node's limit on the size of a buffer or a sample rate that is not an integer.
- RouteSet.OwnHopsComeOffIff: asks that sip.ParseUri reads back the URI we print, and that our own addresses are IPv4 addresses or host names.
- ForkEnds.HandlerReturns: supposes that every branch reports; a branch whose response channel closes, or that ends without error, reports nothing and the code then waits for its context.
- SIP transactions, sockets, TLS, WebSocket listeners, certificate reload and HTTP: messages sent are log entries, messages received are events.
- The bounded capacity of the results channel: each branch's reports are queued without limit.
- Registrar.ContactStore: keeps each list as a sequence; only its splice works on a backing array, as the code's slices all do.
- Contacts are values: the code compares pointers when it removes a contact that missed its pings, the model compares addresses, which are unique within a list.
- Map iteration order: where the code ranges over a map, the model may visit the keys in any order.
- Digest computation, nonces, and the decision whether a request is authenticated.
- The keepalive's OPTIONS requests, its choice of contacts to ping, and the recognition of a NATed contact.
- Logging, presence updates, JSON encoding, configuration and DNS lookup.
- In-dialog requests other than ACK and BYE change none of the tables; their relaying appears only as forwarded copies and responses.
- The RPC server in front of the dispatcher.
- Sine tones, resampling, mu-law and PCAP output of the audio helpers: floating point or finite tables.
- The Elixir server, the web application's other forms and its user interface.
