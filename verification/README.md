# zonedns: a verified model

zonedns answers DNS queries by zone. A node-side agent finds out which zone the
asking pod belongs to, keys its answer cache by that zone and declares it to a
central server in an EDNS0 option. Central believes the declaration only from an
authorized agent, looks the queried name up in a snapshot of SPIRE registration
entries, and either passes the query on (same zone), answers with the destination
zone's gateway (other zone) or fails it (other zone, no gateway).

This project models that system in Dafny and proves what it promises:

- **System.dfy**: the two ends as one step system, with any number of queries in
  flight, interleaved with pod events, registry replacements and the clock. In every
  run a cache hit is an answer central gave, under 30 seconds before, for the same
  name and type with exactly the same zone declared (`HitIff` says exactly when there is
  one); once central's decision has been settled for 30 seconds, every answer written to
  a client follows it, cached or not; and the zone a query carries was the label in the
  latest report of a pod holding the source address. `TwoEnds.Isolation` and
  `TwoEnds.PodIsolation` put these together.
- **Podzone.dfy**: the pod index under any event order. It never answers with a zone
  no current pod has; exactly which events can leave a pod unfound; exactly when a
  resync repairs the table.
- **Zonecache.dfy**, **Lru.dfy**: the answer cache, its TTL arithmetic, its
  independence between zones under any eviction, its isolation from the messages
  callers hold, and the eviction of the least recently used key.
- **Registry.dfy**, **Poller.dfy**, **Spiffezone.dfy**: the one-pass conflict
  detection against its declarative meaning, the pagination loop against any server,
  the polling history.
- **Readiness.dfy**: the readiness gauge over every interleaving of single reads and
  writes.
- **Ednszone.dfy**: the option codec and its in-place compaction.
- **Central.dfy**, **Agent.dfy**, **TwoEnds.dfy**: central's complete decision table,
  the agent's handler, and the agreement of the two ends.
- **Dns.dfy**, **Text.dfy**, **Wrappers.dfy**: messages, strings, options.

Code that updates state in place is modelled as classes and methods with loops
(`Watcher`, `Cache`, `OptRecord`, `Poller`, `Store`, `Agent`), each proved against a
function on values; the theorems are about those functions. The system model uses
the same functions, and `HitStepsAreServeDNS` and `MissStepsAreServeDNS` tie its
steps to the handler. Pure code is functions.

Inputs from outside are parameters: the clock, the informer's events, the server
behind each poll (any function of the tokens asked for so far), the exchange with
central, the TLS state of a connection, and the answer of the next handler in
central's chain. Names are ASCII. Times are nanoseconds.

## Where the code and its comments differ

The model follows the code. Four promises of the comments hold only under a condition;
each has a witness and an exact condition. So has one point the comments do not mention,
the class of a question.

- "A client-supplied option must never survive" (plugin/zonedns_agent/agent.go:69-73):
  only the last OPT record is cleared. `ClientDeclarationSurvives` is a message with
  two OPT records; `StripClearsAllIff` says exactly which messages come out clean.
  Central never reads the one that survives (`OutboundRoundTrip`).
- "The elapsed time subtracted from every record's TTL" (internal/zonecache/zonecache.go:110-115):
  one value is written into all records, which can raise an authority or additional
  record (`AuthorityTtlRaised`); `NoTtlRaisedIff` says exactly which answers are safe.
  A clock read before another query's Put can also give an Answer TTL above 30 and
  above the original (`EarlierClockRaisesTtl`): Answer TTLs keep their bounds exactly
  when the reading is less than a second before the put time (`NearReadingInBoundsIff`,
  readings within 136 years; `AnswersInBoundsIff`, all readings, where the 32-bit
  conversion can undo the excess). `ServedTtlWithinExpiry` holds for every reading.
- "It zeroes the gauge only when no newer generation has become ready"
  (plugin/zonedns_agent/setup.go:166-169): readiness out of generation order, or a stop
  before its own ready, is misread (`MisreadingsHappen`); `AccurateStepIff` and
  `AlwaysAccurateIff` say exactly which calls keep the gauge right.
- "Lowercase, no trailing dot" (internal/registry/registry.go:35-36): one dot is removed,
  so a name ending in two keeps one. `TwoDotsKeepOne` is an instance; the result has no
  trailing dot, and normalizing again changes nothing, exactly for all other names
  (`NormalizedHasNoDotIff`, `NormalizeIdempotentIff`).
- The cache key has no class (internal/zonecache/zonecache.go:46-50), so an answer for
  class IN is served to a query for class CH (`OtherClassServed`); a hit answers the class
  asked exactly when the query its entry came from asked for that class (`HitClassIff`).

## Model

| member | source | states |
|---|---|---|
| System.HitExplained | plugin/zonedns_agent/agent.go:48-109 | in every run, every cache hit has the rcode and record data of a reply central gave, at an earlier step less than 30 s before the hit's clock reading, to a query of this agent whose first question has the same whole name, case aside, and the same type, and that declared exactly the hit's zone (or none); its TTLs run out within 30 s of that decision |
| System.HitIff | plugin/zonedns_agent/agent.go:48-109 | exactly when a lookup hits, in every run: if and only if an earlier delivery brought an accepted answer for the same name, type and zone, nothing has replaced or evicted it since, and less than 30 s and less than each Answer TTL have passed between the two clock readings; the hit has that reply's content |
| System.CacheIff | internal/zonecache/zonecache.go:82-108 | in every run the cache holds exactly the entries some delivery put there and no later one replaced or evicted |
| System.HitFollowsPolicy | internal/zonecache/zonecache.go:21-38 | the propagation bound: if every snapshot in force during the last 30 s decides the same for a query, a hit is that gateway's address, owned by the name asked for, and no other record, or the next handler's answer to the query for the same name, type and zone that explains the hit, and is impossible if the decision is SERVFAIL |
| System.DeliveryExplained | plugin/zonedns_agent/agent.go:79-109 | in every run, an answer delivered after an exchange is central's reply to this very query, identified by its id: decided after that query's own arrival and clock reading, for the zone resolved at that arrival, which is exactly what was declared |
| System.DeliveryFollowsPolicy | plugin/zonedns_agent/agent.go:79-109 | on a miss only decisions since the clock was read matter: if they agree, the reply to that query is exactly the gateway reply, the next handler's message of that decision, or SERVFAIL without records |
| System.EveryAnswerFollowsPolicy | plugin/zonedns_agent/agent.go:48-109 | everything written to a client in a run is SERVFAIL without records if the exchange failed or its answer was rejected; otherwise, cached or not, it rests on a decision for its name, type and zone and is what a decision settled for 30 s calls for: the gateway's address owned by the name asked for, or NODATA, and no other record; the next handler's answer; or SERVFAIL without records |
| System.AnswerAddressed | plugin/zonedns_agent/agent.go:56-61 | everything written is a reply to the client's own query: its id, opcode and first question |
| System.AnsweredOnce | plugin/zonedns_agent/agent.go:48-109 | conservation over every run: a query stays in flight exactly as long as nothing has been written for it, so each is answered at most once, and is answered when it leaves |
| System.RunExtends | plugin/zonedns_agent/agent.go:48-109 | runs exist and go on: an empty system is a run of no steps, and any enabled step extends a run |
| System.HitClassIff | internal/zonecache/zonecache.go:46-50 | the class of a hit is the class asked at every step its entry can have come from; so it is the class asked now if and only if that step's query asked for it too |
| System.ZoneIsSources | plugin/zonedns_agent/agent.go:149-178 | in every run on Kubernetes, a query that carries a zone came from an address that, at that query's own arrival, stood in the latest report of a pod off the host network with that zone as its label; no later report or delete of that pod had come before the arrival |
| System.ZoneFromArrival | plugin/zonedns_agent/agent.go:48-53 | a query in flight has one arrival, and carries exactly the zone the index gave its source then |
| System.KnownInRun | internal/podzone/podzone.go:156-234 | the reports the index is compared with are the latest ones among the steps of the run: reported, and neither reported again nor deleted since |
| System.VmZone | plugin/zonedns_agent/resolver.go:19-34 | in VM mode a query carries the machine's zone if and only if its source is an address other than the node's, and none otherwise |
| System.UnknownIsUndeclared | plugin/zonedns_agent/agent.go:149-178 | in both modes a query from the node's own address or with an unparseable source, and on Kubernetes any query that arrives while the watcher is not ready, carries no zone, central reads none, and it is passed through |
| System.RegistryIsLastPoll | internal/registry/registry.go:106-124 | the snapshot central decides by is that of the last poll, and none before the first |
| System.ReadyIsLastSync | internal/podzone/podzone.go:86-122 | the watcher answers as its readiness was last set, and not before it was set |
| System.ClockIsElapsed | plugin/zonedns_agent/agent.go:53-54 | the clock a query reads shows the time elapsed so far |
| System.RunInv | plugin/zonedns_agent/agent.go:48-109 | the invariant of all reachable states: every query in flight has a well-formed zone resolved at its own arrival and, past that, its own clock reading and its own reply from central; every cached entry stems from a decision at most 30 s before its expiry that answers the question it is filed under |
| System.SameKeyIff | plugin/zonedns_agent/agent.go:51-54 | two queries share a cache entry if and only if their first questions have the same whole name, case aside, and the same type, and their zones are equal, where no zone differs from every zone |
| System.PolicyDependsOn | plugin/zonedns/zonedns.go:40-79 | with equal option codes central's decision depends on the name asked for, case aside, the type and the agent's zone only |
| System.HitStepsAreServeDNS | plugin/zonedns_agent/agent.go:51-65 | a query's steps on a hit give what the handler's specification gives and leave the state as it was |
| System.MissStepsAreServeDNS | plugin/zonedns_agent/agent.go:66-109 | a query's steps on a miss, from arrival through central's decision to delivery, give what the handler's specification gives, answer and cache contents, under LRU eviction |
| System.FailStepsAreServeDNS | plugin/zonedns_agent/agent.go:79-84 | a query's steps when the exchange fails leave the state as it was, without an answer, as the handler's specification does |
| Podzone.ReplaySafe | internal/podzone/podzone.go:156-234 | after any event sequence byPod is exactly the IPs of the qualifying latest reports, and every byIP entry is backed by an indexed pod whose latest report says so |
| Podzone.QualifyIff | internal/podzone/podzone.go:162-182 | a report is indexed as (ip, zone) if and only if the pod is off the host network, its IP parses as ip, and its label is the well-formed zone |
| Podzone.DeleteForgets | internal/podzone/podzone.go:212-234 | a delete, as the pod itself or as a tombstone with its last state, drops the pod, its report and the address it was indexed under; every other object changes nothing |
| Podzone.KnownIsLatest | internal/podzone/podzone.go:156-234 | a pod is known by a report exactly when that report came and no later report or delete, in either form, of that pod did |
| Podzone.NoDepartedTenant | internal/podzone/podzone.go:204-234 | after any event sequence an IP maps to a zone only by the report of a pod off the host network with that IP and that well-formed label, about which nothing has been heard since, no later report and no delete in either form |
| Podzone.CompleteStepIff | internal/podzone/podzone.go:189-201 | an event keeps a complete index complete if and only if the IP given up is nobody else's and the IP taken is shared only under the same zone |
| Podzone.AlwaysCompleteIff | internal/podzone/podzone.go:156-234 | over any history, every pod always finds its zone if and only if every event was harmless in that sense when it arrived |
| Podzone.IncrementalIsRecomputed | internal/podzone/podzone.go:184-234 | without address sharing byIP is the image of the qualifying latest reports after every event, and IPs are distinct |
| Podzone.CompleteIsRecomputed | internal/podzone/podzone.go:156-202 | a safe index is complete if and only if it is the table recomputed from the latest reports |
| Podzone.ReuseRace | internal/podzone/podzone.go:64-76 | for any two pods with one IP, add-new before delete-old leaves the new pod indexed but unfound |
| Podzone.ResyncForgetsHistory | internal/podzone/podzone.go:64-83 | after any history, redelivering the latest reports in any order gives the table built from nothing in that order |
| Podzone.ResyncHealsIff | internal/podzone/podzone.go:64-83 | the table after a resync is the recomputed one if and only if no two latest reports claim one IP for different zones |
| Podzone.LenBound | internal/podzone/podzone.go:257-262 | Len is at most the number of indexed pods, with equality exactly when their IPs are distinct and all present |
| Podzone.Watcher.Upsert | internal/podzone/podzone.go:156-202 | an eligible pod is indexed under its own IP and label and any address it gave up is dropped, another pod is dropped with its address, other objects change nothing; the index stays safe, and the latest report is recorded |
| Podzone.Watcher.Remove | internal/podzone/podzone.go:212-234 | a deleted pod, given directly or in a tombstone, loses its report, its entry and the address it was indexed under, and nothing else changes; other objects change nothing; the index stays safe |
| Podzone.Watcher.Zone | internal/podzone/podzone.go:240-248 | no answer before the first sync; an answer is a well-formed zone some indexed pod holds at that IP |
| Podzone.Watcher.Len | internal/podzone/podzone.go:258-262 | the size reported is that of byIP, with its bound and its equality case |
| Zonecache.AnswerTtlBounds | internal/zonecache/zonecache.go:82-143 | a served Answer TTL is at most the original and at most 30, and expires no later than put time plus the smallest original TTL and plus 30 s |
| Zonecache.AnswersInBoundsIff | internal/zonecache/zonecache.go:116-133 | over all clock readings, every Answer TTL of a hit is at most its original and at most 30 if and only if the reading is less than a second before the put time, or early by an amount that the 32-bit conversion undoes |
| Zonecache.NearReadingInBoundsIff | internal/zonecache/zonecache.go:116-133 | within 136 years of the put time those bounds hold if and only if the reading is less than a second early |
| Zonecache.TtlExact | internal/zonecache/zonecache.go:97-130 | the duration and 32-bit conversions lose nothing; a lookup is fresh exactly before put time plus lifetime |
| Zonecache.FoundIff | internal/zonecache/zonecache.go:116-143 | what is put is found: under every key, whatever else is cached, a lookup hits if and only if less than 30 s and less than every Answer TTL have passed, in nanoseconds, and has the stored content |
| Zonecache.ServedTtls | internal/zonecache/zonecache.go:129-142 | every answer, authority and non-OPT additional record of a hit carries exactly the whole seconds left; OPT records are untouched |
| Zonecache.ServedTtlNeverGrows | internal/zonecache/zonecache.go:124-130 | a later hit never shows a larger TTL, and freshness is lost for good |
| Zonecache.ServedTtlWithinExpiry | internal/zonecache/zonecache.go:124-133 | whatever the clock reading, served Answer TTLs run out no later than the entry |
| Zonecache.EarlierClockRaisesTtl | internal/zonecache/zonecache.go:124-133 | witness for the failing side of AnswersInBoundsIff: a clock read two seconds before the put time serves TTL 32 |
| Zonecache.ServedContent | internal/zonecache/zonecache.go:129-142 | a hit has the stored rcode, question and record data; OPT records are untouched |
| Zonecache.NoTtlRaisedIff | internal/zonecache/zonecache.go:110-143 | no hit at or after the put time ever raises a record's TTL if and only if every authority and non-OPT additional record was given at least the cached lifetime |
| Zonecache.AuthorityTtlRaised | internal/zonecache/zonecache.go:134-136 | witness: an authority TTL of 5 is served as 30 |
| Zonecache.HistoryHoldsLastPut | internal/zonecache/zonecache.go:82-122 | under any eviction an entry present is the one made by the last accepted Put for its key |
| Zonecache.KeyIff | internal/zonecache/zonecache.go:69-74 | two lookups share a key if and only if they agree on the name, case aside, the type and the zone |
| Zonecache.OthersFound | internal/zonecache/zonecache.go:82-122 | a Put does not change what is found under any other key |
| Zonecache.NonInterference | internal/zonecache/zonecache.go:72-143 | two histories that agree on one zone's operations, whatever they do for others and evict, give equal answers to a lookup in that zone whenever both hit |
| Zonecache.UndeclaredBucketIsSeparate | internal/zonecache/zonecache.go:46-50 | the key for sources without a zone is never the key of a well-formed zone |
| Zonecache.KeepFor | internal/zonecache/zonecache.go:82-100 | the minimum loop yields the smallest Answer TTL capped at 30 s, and 0 exactly for answers that are not kept |
| Zonecache.CacheableIff | internal/zonecache/zonecache.go:82-95 | an answer is kept exactly if it has Answer records and none with TTL 0 |
| Zonecache.LifetimeIsLongest | internal/zonecache/zonecache.go:87-100 | the lifetime is the longest duration within 30 s and within every Answer record's TTL |
| Zonecache.MinTtlIsLeast | internal/zonecache/zonecache.go:87-92 | the minimum is a lower bound of the Answer TTLs and one of them |
| Zonecache.RewriteSection | internal/zonecache/zonecache.go:131-141 | the rewriting loop sets the TTL of every record, OPT records excepted where asked, and nothing else |
| Zonecache.Cache.Put | internal/zonecache/zonecache.go:82-108 | an accepted answer is stored as a private copy under its key with its expiry and as the most recently used, evicting at most the least recently used key and only from a full cache; other answers change nothing |
| Zonecache.Cache.Get | internal/zonecache/zonecache.go:116-143 | the result is a fresh copy with the remaining seconds, or nothing if absent or expired; the contents do not change, and the key becomes the most recently used |
| Zonecache.New | internal/zonecache/zonecache.go:57-67 | a cache is built, empty and of that capacity, exactly for a positive size |
| Zonecache.LruStoredIsStep | internal/zonecache/zonecache.go:102-107 | the LRU's eviction is one the cache histories allow |
| Lru.EvictsLeastRecent | internal/zonecache/zonecache.go:102-118 | after any history of lookups and additions, adding a key evicts if and only if the key is new and the map full; one key then goes, and every other has been used since it was |
| Ednszone.Valid | internal/ednszone/ednszone.go:32-48 | the index loop accepts exactly strings of 1 to 63 characters whose code points are letters, digits, '-' or '_' |
| Ednszone.OptRecord.Strip | plugin/zonedns_agent/agent.go:116-129 | compaction in the slice's own array leaves exactly the order-preserving filter and touches nothing beyond the old length |
| Ednszone.OptRecord.Set | internal/ednszone/ednszone.go:63-71 | the filter followed by one declaration, in place or in a grown array |
| Ednszone.OptRecord.Get | internal/ednszone/ednszone.go:84-106 | the loop returns the declaration exactly when there is one and it is well formed |
| Ednszone.DeclaredIff | internal/ednszone/ednszone.go:84-106 | zone z is read if and only if it is well formed and one option is the local option with that code and z as data, and no other is a local option with that code |
| Ednszone.WithoutConcat | plugin/zonedns_agent/agent.go:121-128 | the filter distributes over concatenation, so kept options keep their order |
| Ednszone.WithoutContents | plugin/zonedns_agent/agent.go:121-128 | the filter keeps every other option with its multiplicity and drops every declaration |
| Ednszone.DeclarationRoundTrip | internal/ednszone/ednszone.go:50-106 | after Set there is exactly one declaration, and Get reads it back exactly when it is well formed |
| Ednszone.OutboundRoundTrip | plugin/zonedns_agent/agent.go:68-77 | whatever the client sent, central reads exactly the agent's well-formed zone, or nothing |
| Ednszone.OutboundKeepsOtherOptions | plugin/zonedns_agent/agent.go:111-129 | options not under the code survive unchanged and in order, and a declaration under any other code reads as it did |
| Ednszone.OutboundKeepsRest | internal/ednszone/ednszone.go:50-61 | the OPT record keeps its size and flags, all other records and fields are the client's, and an OPT record, of size 4096, is added only to carry a declaration |
| Ednszone.StripClearsAllIff | plugin/zonedns_agent/agent.go:111-129 | no declaration is left anywhere if and only if no OPT record but the last carried one |
| Ednszone.ClientDeclarationSurvives | plugin/zonedns_agent/agent.go:69-74 | witness: a client's declaration in the first of two OPT records survives, though central does not read it |
| Registry.BuildSnapshot | internal/registry/registry.go:51-98 | the one-pass build yields exactly the names declared into one zone, and the declarative counts |
| Registry.LookupMeaning | internal/registry/registry.go:100-104 | a queried name resolves to z if and only if some entry with a SPIFFE ID path naming the well-formed zone z lists the name, up to case and one trailing dot, and no entry does so for another zone |
| Registry.SameNameIff | internal/registry/registry.go:35-43 | two names normalize alike if and only if they are equal up to case and one trailing dot |
| Registry.DeclaresIff | internal/registry/registry.go:56-89 | splitting the path and normalizing the names finds exactly what an entry registers |
| Registry.StatsMean | internal/registry/registry.go:23-28 | the names counted are those that resolve, and the conflicts are the declared names that do not |
| Registry.BuildUnordered | internal/registry/registry.go:51-98 | neither the order of entries nor their split into pages changes snapshot or statistics |
| Registry.StatsConserve | internal/registry/registry.go:23-28 | resolvable and conflicting names together are all declared names; skipped and contributing entries together are all entries |
| Registry.NormalizedHasNoDotIff | internal/registry/registry.go:35-43 | a normalized name has no trailing dot, except exactly for names ending in two |
| Registry.NormalizeIdempotentIff | internal/registry/registry.go:41-43 | normalizing again changes nothing, except exactly for names ending in two dots |
| Registry.TwoDotsKeepOne | internal/registry/registry.go:41-43 | witness: "a.." normalizes to "a." and so does not meet "a" |
| Registry.DeclarationsMean | internal/registry/registry.go:56-89 | the declarations gathered are exactly those of the entries with a valid zone and a non-empty normalized name |
| Poller.Fetch | internal/registry/spire.go:160-184 | against any server the loop ends within 10000 requests, never asks for a token twice, and either has every page of a chain that ended or gives up for one of three stated reasons |
| Poller.GaveUpJustified | internal/registry/spire.go:154-184 | if a poll gave up then no chain of at most 10000 distinct tokens ends: it could not have finished |
| Poller.NoSpuriousAbort | internal/registry/spire.go:154-184 | a server whose page depends on the token alone and whose chain ends within 10000 pages never repeats a token, so its poll finishes |
| Poller.EndedUnique | internal/registry/spire.go:160-184 | at most one token chain of a server ends, so the pages of a finished poll are determined |
| Poller.Poller.PollOnce | internal/registry/spire.go:145-189 | success if and only if the server lets a poll finish; then the store holds the snapshot of all its pages, otherwise it is untouched |
| Poller.Poller.Run | internal/registry/spire.go:191-218 | after any polls the counter and every reported count is the trailing run of failures, the store holds the last success, and it is not ready exactly when none succeeded |
| Poller.TrailingFailuresMean | internal/registry/spire.go:134-143 | the trailing run consists of failures and is preceded by the last success, if any |
| Poller.CountersAt | internal/registry/spire.go:191-218 | the count reported after each poll is the counter after the polls up to it |
| Poller.ValuesConcat | internal/registry/spire.go:191-218 | the statistics published are those of the successful polls, in order |
| Spiffezone.FromPathIff | internal/spiffezone/spiffezone.go:20-27 | the split finds zone z exactly in paths of the form [/]zone/z followed by the end or a slash, z non-empty and slash-free |
| Readiness.GaugeExact | plugin/zonedns_agent/setup.go:94-113 | in every interleaving, with the mutex free, the gauge is 1 if and only if the last generation to report ready has not stopped since |
| Readiness.InvStep | plugin/zonedns_agent/setup.go:159-180 | every single read and write keeps mutual exclusion and the relation of gauge and generation to the finished calls |
| Readiness.GaugeMeansNewestRuns | plugin/zonedns_agent/setup.go:77-92 | if ready reports come in generation order and none after its own generation's stop (a generation may stop without ever being ready), the gauge is 1 exactly while the newest ready generation has not stopped |
| Readiness.AccurateStepIff | plugin/zonedns_agent/setup.go:166-180 | a call keeps an accurate gauge accurate if and only if it is orderly, a test on the calls before it |
| Readiness.AlwaysAccurateIff | plugin/zonedns_agent/setup.go:151-180 | over any order of calls the gauge is always accurate if and only if every call was orderly |
| Readiness.Realizable | plugin/zonedns_agent/setup.go:159-180 | every order of distinct calls is the order of some interleaving |
| Readiness.MisreadingsHappen | plugin/zonedns_agent/setup.go:159-180 | witnesses: an interleaving with the gauge at 1 and nothing running, and one with it at 0 and the newest ready generation running |
| Readiness.VmGaugeMeansNewestRuns | plugin/zonedns_agent/setup.go:133-149 | in VM mode, where each setup reports ready before it returns, the gauge is always accurate |
| Readiness.ShowsIff | plugin/zonedns_agent/setup.go:159-180 | the outcome of the calls one after the other is 1 if and only if a last ready report stands |
| Central.ActionIff | plugin/zonedns/zonedns.go:40-79 | the gateway branch exactly for an A or AAAA query from an authorized peer with one well-formed declaration, for a name in another zone that has a gateway; SERVFAIL exactly when only the gateway is missing; otherwise pass-through |
| Central.SourceZoneIff | internal/identity/identity.go:61-94 | zone z is believed if and only if the leaf's only URI SAN is an authorized SPIFFE ID and one option, and no other, declares the well-formed z; each of the three refusals has its exact condition: no chain, an unauthorized leaf, an authorized one without such a declaration |
| Central.PeerIff | internal/identity/peercert.go:45-87 | the leaf is accepted exactly if it carries one URI SAN, a SPIFFE ID on the list; an HTTP request in the context decides before the writer |
| Central.NewConfig | internal/identity/identity.go:49-59 | exactly the listed agents are authorized, none for an empty list |
| Central.GatewayReplyContent | plugin/zonedns/zonedns.go:81-121 | a gateway reply is an authoritative reply under the request's id and question; its only record is the gateway's address in the family asked for, owned by the name asked for, in class IN with the configured TTL; it is NODATA for the other family, never denies the name, and carries an OPT record exactly if the request had one |
| Agent.Agent.ServeDNS | plugin/zonedns_agent/agent.go:48-109 | the client gets the cached answer, else central's if it answers the question, else SERVFAIL; the cache keeps central's answer as it came, untouched by the reply header written afterwards |
| Agent.Agent.ResolveZone | plugin/zonedns_agent/agent.go:157-178 | no zone for an unparseable source, the node's own address or an unknown one; any zone found is well formed |
| Agent.CheckQuestion | plugin/zonedns_agent/agent.go:136-147 | the loop accepts exactly answers whose questions agree in name up to case, type and class |
| Agent.AcceptedIff | plugin/zonedns_agent/agent.go:131-147 | an answer is accepted if and only if its questions are the query's, name by name after lower-casing, type by type and class by class |
| Agent.AnswerMatchesKey | plugin/zonedns_agent/agent.go:92-98 | an accepted answer is about the name, type and class asked for |
| Agent.KeyIgnoresClass | internal/zonecache/zonecache.go:46-50 | the cache key is the same whatever class is asked for |
| Agent.OtherClassServed | internal/zonecache/zonecache.go:46-74 | witness: an IN answer is served to a CH query |
| Dns.ReplyKeepsContent | plugin/zonedns_agent/agent.go:56-61 | the reply written has the answer's own rcode and records, under the client's id and question |
| TwoEnds.EndToEnd | internal/decision/decision.go:51-81 | the query of a pod eligible for z that the index finds, for a name registered only under z' in any spelling, passes through if and only if z = z', and otherwise gets the gateway of z' or SERVFAIL |
| TwoEnds.Isolation | plugin/zonedns/zonedns.go:1-11 | over every run: what is written, from the cache or after an exchange, for a query carrying zone z about a name the registry has placed in another zone z' for 30 s holds no record, authority and additional sections included, but the gateway of z', owned by the name asked for, and is SERVFAIL without records if there is none or the exchange failed; the query came from an address a pod labelled z held when that query arrived |
| TwoEnds.PodIsolation | plugin/zonedns_agent/agent.go:149-178 | the same with no assumption on what the query carries: for a query that arrived, with the index synced, from the address in the latest report of a pod off the host network labelled z, in any run whose pod events until then were harmless |
| TwoEnds.ArrivalFinds | internal/podzone/podzone.go:240-248 | in a run whose pod events were harmless, a pod's query is given the zone of that pod's own label |
| TwoEnds.LabelAgreement | internal/podzone/podzone.go:167-182 | for slash-free labels the watcher accepts a label exactly when the registry accepts the path built from it, as the same zone |
| TwoEnds.QueryMeetsRegistration | internal/registry/registry.go:35-43 | a query in any case with a trailing dot meets the registered name |
| TwoEnds.ClientCannotSteer | plugin/zonedns_agent/agent.go:68-77 | replacing a client's additional records does not change central's decision |

## Left out

- Corefile parsing and setup of both plugins: assumed to give a well-formed VM zone and option codes.
- internal/dohupstream and the SPIRE client: the exchange and each page are parameters that may fail; entries without a SPIFFE ID are dropped before the model's pages.
- The Kubernetes informer: only the event stream it delivers.
- X.509 verification, URL parsing and DNS packing: certificates are lists of URI SANs, options keep their order on the wire.
- Records inside a message are values: a message is an object of its own, but two messages sharing one record or one OPT record object is not modelled; the option slice's backing array is, in OptRecord.
- Central.GatewayReplyContent: does not say which size, options and flags the OPT record has that CoreDNS puts on the reply; CoreDNS is not part of this model.
- IPv4-mapped IPv6 addresses: an address is tagged v4 or v6.
- The LRU library and the DNS library: a bounded map in recency order, deep copies, the last OPT record.
- internal/zonetable and the static resolver: inlined as a map and a constant.
- internal/drift and cmd/zonedns-drift compare declared hosts with pod labels offline and print a report; metrics other than the readiness gauge, logging and manifests observe or deploy the system. No theorem depends on them.
- Wrap-around of the 64-bit generation counter and of absolute times; durations and TTLs do wrap or saturate as in the code.
