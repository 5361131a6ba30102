# Vigiscam backend: a verified model

This project models the stateful core of the Vigiscam backend in Dafny and proves what it keeps. The database is a
set of maps and sequences, the clock and every random or generated value are parameters, and SHA-256 is a function
parameter about which a theorem assumes at most that the texts hashed in the chains at hand do not collide.

`dafny verify dfyconfig.toml` checks everything.

| file | models |
|---|---|
| CanonicalJson.dfy | the key-sorted JSON printer that feeds the evidence hash, over UTF-16 code units |
| JsonReader.dfy | a reader for JSON, from the grammar, that reads the printer's texts back |
| EvidenceHash.dfy | the canonical text of one evidence event |
| EvidenceVault.dfy | the per-tenant hash chain: append, the verification walk, tamper evidence |
| EvidenceProtocol.dfy | concurrent appends as lock, read, insert, commit and abort steps |
| Cache.dfy, CacheOrder.dfy | the bounded TTL cache of one node and its invalidation bus; its eviction order |
| InvalidationProtocol.dfy | any number of nodes exchanging invalidations |
| RegistryLifecycle.dfy | governance of registry entries and appeals, replayed from evidence |
| RegistrySearch.dfy | public search: matching and paging |
| SearchKey.dfy | the key under which search results are cached |
| RegistryService.dfy | the registry service over its cache |
| RegistryCluster.dfy | several nodes over one registry, exchanging sweeps |
| SearchRace.dfy | searches and governance of one node, interleaved between their database accesses |
| Normalization.dfy, Clustering.dfy | indicator identity, cluster keys and the rules suggested from them |
| Intake.dfy | signal intake, clustering and cached cluster aggregates |
| FraudGraph.dfy | nodes with running aggregates, canonical edges, campaigns |
| Neighbourhood.dfy | the bounded breadth-first walk |
| Billing.dfy | subscription billing under redelivered and failing webhooks |
| Quota.dfy | the daily quota of partner keys under concurrency |
| Luhn.dfy, Embedding.dfy, CorsMatcher.dfy | the check-digit loop, the trigram embedding, the CORS glob |
| AsciiText.dfy, Wrappers.dfy | string operations and small shared types |

Objects whose methods update their fields are classes; each method is tied to a function of the old state, and the
theorems are about runs of those functions. The intake theorems hold for any normalizer and any cluster key that are
functions of the indicator; `Intake.SameClusterIffShared` instantiates them with the ones in force.

## Findings

Each of these comes with a lemma that reaches the failing side; all but the search race state an exact condition.

- The chain that `append` builds is accepted by `verifyChain` exactly when no metadata object ever held an `undefined`
  field: the hash covers such a field as `null`, storage drops it (`EvidenceProtocol.VerifyAcceptsEveryRun`,
  `EvidenceProtocol.UndefinedFieldRejected`).
- Cache coherence rests on distinct node ids: two nodes that share a `HOSTNAME` ignore each other's invalidations
  (`InvalidationProtocol.CoherentIffDistinctIds`). With several nodes over one registry, all nodes come to answer all plain
  searches right in all runs exactly when the ids are distinct (`RegistryCluster.AllRightIffDistinctIds`).
- The search cache serves a query right, in every run, exactly when its three texts can be read back from the key in one
  way and it is no search for a wallet, other than an EVM address, that has letters (`RegistryService.CachedSearchExact`,
  `SearchKey.KeyExact`). Texts without bars can be read back in one way.
- A search that read the database before a publication or withdrawal, and stores its result after the sweep, leaves an
  out-of-date result until it expires. That is the only way a plain query is answered wrong on one node while no sweep is
  outstanding, and it can happen to every query (`SearchRace.RightUnlessRaced`, `SearchRace.RaceReached`).
- Removing a campaign member right after adding it restores the graph exactly when it was not a member before
  (`FraudGraph.RemoveUndoesAdd`, `FraudGraph.RemoveLosesOlderEdge`).
- Redelivered, failing and retried webhooks leave, at all times, the table in which each event is written once, exactly
  when every attempt that repeats a write finds a row that still holds the fields it sets (`Billing.WrittenOnce`); a retry
  that comes after a deletion brings the canceled plan back (`Billing.LateRetryReorders`).
- The quota can be exceeded by exactly the number of outstanding increments minus one, plus the lost ones
  (`Quota.OvershootExact`, `Quota.OvershootReached`); so it holds in all runs exactly when at most one increment is ever
  outstanding and none is lost (`Quota.QuotaHoldsExactly`).
- A label prefixed to a host keeps its domain root exactly when the host does not start with white space
  (`Clustering.PrefixKeepsRoot`, `Clustering.SpaceLosesRoot`).

## Model

| member | source | states |
|---|---|---|
| CanonicalJson.Sort | src/modules/evidence-vault/evidence.hash.ts:19 | sorting the keys permutes them |
| CanonicalJson.SortOrdered | src/modules/evidence-vault/evidence.hash.ts:19 | the sorted keys are in code-unit order |
| CanonicalJson.OrderedUnique | src/modules/evidence-vault/evidence.hash.ts:19 | ordered key lists with the same keys are the same list, so the order in which an object lists its keys is forgotten |
| CanonicalJson.BeforeMeans | src/modules/evidence-vault/evidence.hash.ts:19 | code-unit order: the first difference decides, or the end of the shorter text |
| JsonReader.EscapeReads | src/modules/evidence-vault/evidence.hash.ts:13 | every escape is a JSON escape (section 7 of RFC 8259) of that very code unit, whatever follows it |
| JsonReader.EscapeShortest | src/modules/evidence-vault/evidence.hash.ts:13 | among all JSON texts of a code unit, with hexadecimal digits in lower case, the printed one is the shortest |
| JsonReader.QuoteReads | src/modules/evidence-vault/evidence.hash.ts:13 | a JSON reader reads back every quoted string, lone surrogates and surrogate pairs included |
| JsonReader.PrintReads | src/modules/evidence-vault/evidence.hash.ts:8-21 | the printed text is JSON without white space: a reader written from the grammar reads it, whatever follows, as the same value, undefined and non-finite numbers as null, and meets the members of every object in code-unit order |
| JsonReader.EscapePrefixCode | src/modules/evidence-vault/evidence.hash.ts:13 | the escapes of string characters (section 7 of RFC 8259) form a prefix code: equal texts start with the same character's escape |
| JsonReader.QuoteUnique | src/modules/evidence-vault/evidence.hash.ts:13 | whatever follows it, a quoted string can be read back in one way only, lone surrogates and surrogate pairs included |
| JsonReader.NumberUnique | src/modules/evidence-vault/evidence.hash.ts:12-14 | a number ends where the text after it begins |
| JsonReader.PrintUnique | src/modules/evidence-vault/evidence.hash.ts:8-21 | two well-formed values whose printed texts agree up to what follows are the same up to key order, and what follows agrees |
| JsonReader.ItemsUnique | src/modules/evidence-vault/evidence.hash.ts:15-17 | the printed items of an array determine the items, one by one |
| JsonReader.MembersUnique | src/modules/evidence-vault/evidence.hash.ts:18-20 | the printed members of an object determine the sorted keys and, under every key, the value |
| CanonicalJson.SamePrints | src/modules/evidence-vault/evidence.hash.ts:3-7 | values that differ in key order only, undefined counting as null, print alike |
| JsonReader.PrinterUnambiguous | src/modules/evidence-vault/evidence.hash.ts:3-21 | two values get the same text exactly when they are equal up to key order (undefined and non-finite numbers counting as null) |
| CanonicalJson.StoredSame | src/modules/evidence-vault/evidence.service.ts:60 | what storage gives back is the same value exactly when no object in it had an undefined field |
| JsonReader.PrintSurvivesStorage | src/modules/evidence-vault/evidence.hash.ts:3-7 | the text survives storage, whatever key order comes back, exactly when no object had an undefined field |
| EvidenceHash.EventKeysDistinct | src/modules/evidence-vault/evidence.hash.ts:46-60 | the thirteen keys of the hashed literal are pairwise distinct |
| EvidenceHash.SameFieldsSameContent | src/modules/evidence-vault/evidence.hash.ts:46-60 | the hashed literals of two events are the same exactly when the events agree on all thirteen fields |
| EvidenceHash.EventTextUnambiguous | src/modules/evidence-vault/evidence.hash.ts:23-61 | two events have the same canonical text exactly when they agree on every hashed field, metadata up to key order |
| EvidenceHash.EventTextReads | src/modules/evidence-vault/evidence.hash.ts:41-60 | the hashed text is a JSON object with exactly thirteen members, which hold under their names what the event holds |
| EvidenceHash.DigestFaithful | src/modules/evidence-vault/evidence.hash.ts:40-62 | unless the hash collides on the two texts, the digests are equal exactly when the contents are: altering any field changes the hash |
| EvidenceVault.EvidenceService.Append | src/modules/evidence-vault/evidence.service.ts:17-69 | the new row has the ten given fields, the metadata as stored, the next number and the link to the tenant's newest row, and a hash of all that with the metadata as given; nothing else changes |
| EvidenceVault.TenantRowsAll | src/modules/evidence-vault/evidence.service.ts:27-30 | a query by tenant finds every row of the tenant as often as the table has it, and no other |
| EvidenceVault.EvidenceService.VerifyChain | src/modules/evidence-vault/evidence.service.ts:88-130 | intact exactly when every link and every content hash of the tenant's chain holds; otherwise the first event that breaks is named with the reason |
| EvidenceVault.HeadDeterminesHistory | src/modules/evidence-vault/evidence.service.ts:88-130 | two intact chains with the same head hash have the same length and agree on every event |
| EvidenceVault.PrefixIntact | src/modules/evidence-vault/evidence.service.ts:94-129 | every prefix of an intact chain is intact, so a lost tail goes unnoticed without a known head |
| EvidenceVault.SameHistoryIntact | src/modules/evidence-vault/evidence.service.ts:94-129 | a chain with the same history as an intact one is intact |
| EvidenceVault.TamperEvident | src/modules/evidence-vault/evidence.service.ts:87-130 | against a known head the walk accepts exactly the recorded history: any edit, deletion, insertion or reordering that keeps the head hash is reported |
| EvidenceVault.EditPinpointed | src/modules/evidence-vault/evidence.service.ts:104-126 | replacing one event's content under its stored hash is reported at that very event, exactly when the hashed content differs |
| EvidenceProtocol.OneWriter | src/modules/evidence-vault/evidence.service.ts:24-25 | of two transactions of one tenant at most one is past the lock |
| EvidenceProtocol.StepKeepsInv | src/modules/evidence-vault/evidence.service.ts:23-68 | every step of any transaction keeps the locks, the freshness of reads and the chaining of all tenants |
| EvidenceProtocol.ReachableInv | src/modules/evidence-vault/evidence.service.ts:23-68 | that invariant holds in every reachable state |
| EvidenceProtocol.NoFork | src/modules/evidence-vault/evidence.service.ts:23-68 | in every interleaving each tenant's sequence numbers are exactly 1..n in commit order and every row links to its predecessor |
| EvidenceProtocol.CommitsRecorded | src/modules/evidence-vault/evidence.service.ts:23-68 | in every interleaving each transaction that commits leaves exactly one row, in commit order, and the row has all ten fields of the input the transaction began with, its metadata as stored, and the hash of these with the metadata as given |
| EvidenceProtocol.VerifyAcceptsEveryRun | src/modules/evidence-vault/evidence.service.ts:23-130 | in every interleaving the walk accepts a tenant's chain exactly when no metadata appended to it had an undefined field |
| EvidenceProtocol.UndefinedFieldRejected | src/modules/evidence-vault/evidence.service.ts:21-130 | any single append whose metadata has an undefined field gives a run, without tampering, whose chain the walk rejects |
| EvidenceProtocol.UndefinedFieldInput | src/modules/evidence-vault/evidence.service.ts:60 | such an append exists |
| EvidenceProtocol.SerialAppend | src/modules/evidence-vault/evidence.service.ts:23-68 | the steps of an append without competition all run, append the row of the sequential method and give the lock back |
| Cache.CacheInvalidationBus.Start | src/common/cache/cache-invalidation-bus.ts:57-81 | the bus gets a publisher exactly when an address is configured |
| Cache.CacheInvalidationBus.Stop | src/common/cache/cache-invalidation-bus.ts:83-87 | afterwards nothing is published |
| Cache.CacheInvalidationBus.Publish | src/common/cache/cache-invalidation-bus.ts:90-98 | the message goes out tagged with the node id, or nothing happens without a publisher |
| Cache.CacheService.Get | src/common/cache/cache.service.ts:42-50 | gives the unexpired value of the key and removes exactly an entry found expired |
| Cache.CacheService.Set | src/common/cache/cache.service.ts:52-60 | evicts the oldest entry of a full store, then stores; the bound holds |
| Cache.CacheService.Delete | src/common/cache/cache.service.ts:62-65 | removes the key locally and broadcasts the message |
| Cache.CacheService.DeletePrefix | src/common/cache/cache.service.ts:68-72 | sweeps the prefix locally, reports how many entries went, and broadcasts the message |
| Cache.CacheService.ApplyDeletePrefix | src/common/cache/cache.service.ts:79-88 | deleting while iterating removes exactly the matching entries, keeps the order of the rest and counts right |
| Cache.CacheService.Clear | src/common/cache/cache.service.ts:74-76 | empties the store |
| Cache.CacheService.OnMessage | src/common/cache/cache-invalidation-bus.ts:69-78 | a message of the node itself is ignored, any other one removes exactly the matching entries |
| Cache.DropContents | src/common/cache/cache.service.ts:79-88 | after a removal exactly the entries that do not match are left, keys still distinct |
| Cache.PutContents | src/common/cache/cache.service.ts:59 | storing changes the entry of one key and no other |
| Cache.StoreContents | src/common/cache/cache.service.ts:52-60 | a store never outgrows its bound, holds the new entry, and loses at most the oldest other entry |
| CacheOrder.RunInOrder | src/common/cache/cache.service.ts:42-88 | in every run of set, get, delete, sweep and clear the store lists its keys in the order in which they came in, a set on a present key keeping its place, and answers like a map from keys to unexpired values |
| CacheOrder.EvictsFirst | src/common/cache/cache.service.ts:52-60 | in every run a set removes another key exactly when the bound is reached and that key has been in the longest |
| InvalidationProtocol.StepKeepsInv | src/common/cache/cache.service.ts:42-88 | with distinct ids every local action and every delivery keeps: an outdated entry still has its message on the way |
| InvalidationProtocol.Coherence | src/common/cache/cache-invalidation-bus.ts:47-98 | in every run of any number of nodes no outdated entry outlives the delivery of its message, and no store outgrows its bound |
| InvalidationProtocol.HitIsLatest | src/common/cache/cache.service.ts:42-60 | a hit is the latest local `set` of the key, unexpired, and any matching invalidation issued since is still on its way to the node |
| InvalidationProtocol.SharedIdGoesStale | src/common/cache/cache-invalidation-bus.ts:54-72 | two nodes with one id always have a run that leaves a stale entry for good |
| InvalidationProtocol.CoherentIffDistinctIds | src/common/cache/cache-invalidation-bus.ts:51-72 | every run is coherent exactly when the node ids are distinct |
| RegistryLifecycle.StepKeepsInv | src/modules/registry/registry.service.ts:155-379 | every registry or appeal action keeps: evidence replays to the status, publication time set exactly while published, one entry per signal, legal log |
| RegistryLifecycle.EveryRun | src/modules/registry/registry.service.ts:155-379 | that invariant holds in every run |
| RegistryLifecycle.LegalCounts | src/modules/registry/registry.service.ts:233-305 | in a legal log publications and withdrawals alternate, publication needs approval, a rejection is recorded once and last |
| RegistryLifecycle.StatusFromEvidence | src/modules/registry/registry.service.ts:155-379 | in every run the evidence alone rebuilds each entry's status; PUBLISHED iff publishedAt is set, then approved earlier; publications minus withdrawals is 1 or 0; no signal has two entries |
| RegistryLifecycle.RejectedForever | src/modules/registry/registry.service.ts:346-379 | a rejected entry never changes again |
| RegistryLifecycle.AppealsOnlyTakeDown | src/modules/registry/registry-appeal.service.ts:34-162 | over any stretch of appeal actions an entry stays as it was, or it was PUBLISHED, is now APPROVED_PUBLIC_SAFE and nothing else changed, and the stretch holds a decision that accepted an open appeal against that very entry and asked to unpublish it |
| RegistryLifecycle.DecideExactly | src/modules/registry/registry-appeal.service.ts:121-162 | in every run a decision on an open appeal makes it ACCEPTED or REJECTED as told and unpublishes the entry it is against exactly when it accepts, asks for that and the entry is PUBLISHED; no other entry changes; on any other appeal nothing does |
| RegistryLifecycle.ReviewExactly | src/modules/registry/registry.service.ts:233-366 | in every run approve, publish, unpublish and reject change the named entry, when its status allows it, in status and time only, and no other |
| RegistryLifecycle.CreateExactly | src/modules/registry/registry.service.ts:155-216 | a candidate is created exactly from a verified signal with safe texts and no entry yet, with the signal's columns and the first category given |
| RegistryLifecycle.FileExactly | src/modules/registry/registry-appeal.service.ts:34-74 | in every run an appeal is added exactly when an entry with the id is PUBLISHED |
| RegistryLifecycle.StartExactly | src/modules/registry/registry-appeal.service.ts:99-118 | in every run exactly a SUBMITTED appeal goes under review |
| RegistryLifecycle.AppealStatusFromEvidence | src/modules/registry/registry-appeal.service.ts:99-162 | in every run the evidence alone rebuilds each appeal's status |
| RegistrySearch.Limit | src/modules/registry/registry.service.ts:72-75 | the page size is between 1 and 100 whatever is asked for |
| RegistrySearch.PageMeans | src/modules/registry/registry.service.ts:71 | the requested page rounded down, 1 when there is none or it is lower |
| RegistrySearch.LimitMeans | src/modules/registry/registry.service.ts:72-75 | the requested page size rounded down, 50 when there is none, cut off at 1 and 100 |
| RegistrySearch.ParseTypeMeans | src/modules/registry/registry.service.ts:139-147 | a type is asked for by its name in any case, anything else asks for none |
| RegistrySearch.MatchingMeans | src/modules/registry/registry.service.ts:84-104 | an entry matches exactly when it is PUBLISHED, has the type and the category asked for, and its normalized indicator is the text's (typed search), or contains the text in lower case, or its indicator contains the text in any case |
| RegistrySearch.MatchesExactly | src/modules/registry/registry.service.ts:84-114 | the matches are exactly the published entries that satisfy type, category and text, latest first, none lost or repeated |
| RegistrySearch.PageHolds | src/modules/registry/registry.service.ts:106-117 | page p holds the matches from (p-1)*limit up to p*limit, and `hasMore` holds iff p*limit is below the number of matches |
| RegistrySearch.WalkFrom | src/modules/registry/registry.service.ts:70-121 | searching for page p, p + 1 and so on while `hasMore` holds ends and yields every later match once, in order |
| RegistrySearch.WalkCoversAll | src/modules/registry/registry.service.ts:70-121 | the searches for pages 1, 2, 3 and so on, for every requested limit, show every match exactly once, latest first, with its public columns and the level of its confidence |
| SearchKey.SameKey | src/modules/registry/registry.service.ts:128-137 | two queries have the same key exactly when they share page, limit and the stretch that holds the three texts |
| SearchKey.KeyDetermines | src/modules/registry/registry.service.ts:128-137 | where that stretch can be read in one way, a shared key means the same search text up to case, the same type and the same category |
| SearchKey.KeyDeterminesResult | src/modules/registry/registry.service.ts:70-137 | queries that share the key of a plain query have the same result on every registry |
| SearchKey.KeyExact | src/modules/registry/registry.service.ts:70-137 | for every query the key determines the result, on all registries and against all other queries, exactly when the texts can be read back in one way and no wallet's case matters |
| SearchKey.BarFreeOneSplit | src/modules/registry/registry.service.ts:128-137 | texts without bars can be read back in one way |
| SearchKey.BarCollides | src/modules/registry/registry.service.ts:128-137 | a search text can imitate the other parts of the key |
| SearchKey.KeyHasPrefix | src/modules/registry/registry.service.ts:124-137 | every search key is caught by the prefix sweep |
| RegistryService.Service.Search | src/modules/registry/registry.service.ts:70-121 | answers with the cached result if there is one, else with the computed one, which it caches |
| RegistryService.Service.FetchPage | src/modules/registry/registry.service.ts:106-118 | reading one row more than the page gives exactly the matches from (page-1)*limit up to page*limit, and `hasMore` iff page*limit is below their number |
| RegistryService.Service.InvalidateSearchCache | src/modules/registry/registry.service.ts:124-126 | drops exactly the search entries and reports how many |
| RegistryService.Service.CreateCandidate | src/modules/registry/registry.service.ts:155-216 | the four refusals in order, else one new CANDIDATE row and its evidence |
| RegistryLifecycle.StatusErrorMeans | src/modules/registry/registry.service.ts:368-379 | with the id as primary key: not found iff no entry has the id, refused iff its entry has another status, passed iff its entry has an allowed one |
| RegistryService.Service.Approve | src/modules/registry/registry.service.ts:233-258 | the whole new registry state, or the error and no change |
| RegistryService.Service.Publish | src/modules/registry/registry.service.ts:261-290 | the new registry state and, on success, the swept cache |
| RegistryService.Service.Unpublish | src/modules/registry/registry.service.ts:293-315 | the new registry state and, on success, the swept cache |
| RegistryService.Service.Reject | src/modules/registry/registry.service.ts:346-366 | the whole new registry state, or the error and no change |
| RegistryService.Service.FileAppeal | src/modules/registry/registry-appeal.service.ts:34-74 | an appeal is filed exactly against a published entry |
| RegistryService.Service.StartReview | src/modules/registry/registry-appeal.service.ts:99-118 | SUBMITTED moves to UNDER_REVIEW, anything else is refused |
| RegistryService.Service.DecideAppeal | src/modules/registry/registry-appeal.service.ts:121-162 | the decision, the withdrawal of a still public entry if asked for, and the swept cache |
| RegistryService.UnsweptSame | src/modules/registry/registry.service.ts:155-366 | an action that does not sweep the cache changes no search result |
| RegistryService.GovernKeepsRight | src/modules/registry/registry.service.ts:124-126 | every action leaves only cached results that are what the search would compute now |
| RegistryService.EveryRun | src/modules/registry/registry.service.ts:70-137 | so after every run of searches and actions every cached result is current |
| RegistryService.CachedSearchRefinesUncached | src/modules/registry/registry.service.ts:70-137 | after every run, through eviction and expiry, a plain query gets exactly the result recomputed from the current registry |
| RegistryService.WrongAnswer | src/modules/registry/registry.service.ts:70-137 | every other query is answered wrong after some run of candidates created, approved and published and one search |
| RegistryService.CachedSearchExact | src/modules/registry/registry.service.ts:70-137 | cached search agrees with uncached search in all runs for exactly the plain queries |
| RegistryCluster.StepKeepsInv | src/modules/registry/registry.service.ts:70-137 | with distinct node ids every search, action and delivery keeps: a node whose cached results are out of date has another node's sweep on its way |
| RegistryCluster.EveryNodeRight | src/common/cache/cache-invalidation-bus.ts:57-98 | in every run of any number of nodes a plain query is answered as if uncached, unless another node's sweep is still on its way to the node; once nothing is in flight, everywhere |
| RegistryCluster.SharedIdAnswersWrong | src/common/cache/cache-invalidation-bus.ts:51-78 | with two equal ids some run ends, nothing in flight, with a node that answers the search for everything wrong |
| RegistryCluster.AllRightIffDistinctIds | src/common/cache/cache-invalidation-bus.ts:51-98 | all nodes answer all plain queries right in all runs with nothing in flight exactly when the ids are distinct |
| SearchRace.StepKeepsInv | src/modules/registry/registry.service.ts:70-137 | every step of any search, action or sweep keeps: what was read since the last public change is current, and no cached result was stored before a sweep |
| SearchRace.RightUnlessRaced | src/modules/registry/registry.service.ts:70-121 | in every interleaving a plain query is answered as if uncached, unless its cached result was read before a public change whose sweep is outstanding or ran before the result was stored, and then only until the result expires |
| SearchRace.RaceReached | src/modules/registry/registry.service.ts:106-119 | every query, on whatever page, has a run that races it with a publication and ends, nothing pending and all swept, with the query answered wrong until the TTL has passed and right after it |
| Normalization.PhoneIdempotent | src/modules/scam-signals/normalization.ts:9-16 | normalizing a phone number twice changes nothing more |
| Normalization.EmailIdempotent | src/modules/scam-signals/normalization.ts:35-37 | likewise for email |
| Normalization.WalletIdempotent | src/modules/scam-signals/normalization.ts:40-43 | likewise for wallets |
| Normalization.PhraseIdempotent | src/modules/scam-signals/normalization.ts:46-48 | likewise for phrases, whose white space ends up as single inner blanks |
| Normalization.NormalizeIgnoresCase | src/modules/scam-signals/normalization.ts:9-68 | every normalizer but the wallet's ignores the case of its input |
| Normalization.WalletCaseExact | src/modules/scam-signals/normalization.ts:40-43 | a wallet in the other case is the same wallet exactly when it is an EVM address or has no letters |
| Normalization.PhoneOfDigits | src/modules/scam-signals/normalization.ts:9-16 | digits alone are kept, after a plus, or after +1 when there are ten and no plus is given |
| Normalization.PhoneForgets | src/modules/scam-signals/normalization.ts:9-16 | whatever is no digit is forgotten anywhere after the start |
| Normalization.SameEmail | src/modules/scam-signals/normalization.ts:35-37 | two emails, companies, profiles or other indicators are the same exactly when they are, trimmed, the same up to case |
| Normalization.SameWallet | src/modules/scam-signals/normalization.ts:40-43 | two wallets are the same exactly when they are, trimmed, the same text or the same EVM address up to case |
| Normalization.SamePhrase | src/modules/scam-signals/normalization.ts:46-48 | two phrases are the same exactly when they have the same words up to case |
| Normalization.UrlMeans | src/modules/scam-signals/normalization.ts:30-32 | a URL loses its slashes at the end and nothing else |
| Normalization.DomainIsHost | src/modules/scam-signals/normalization.ts:19-27 | of an address with any scheme, user, port, path, query and fragment the domain is the host alone, without one "www." and one dot at the end |
| Normalization.WwwForgotten | src/modules/scam-signals/normalization.ts:19-27 | so addresses that differ in these parts only have the same domain, which is the plain host |
| Clustering.RootIsTwoLabels | src/modules/clustering/clustering.ts:22-32 | a domain root is two non-empty, lower-case labels without dots or white space |
| Clustering.RootIdempotent | src/modules/clustering/clustering.ts:22-32 | the root of a root is itself |
| Clustering.PrefixKeepsRoot | src/modules/clustering/clustering.ts:22-32 | prefixing labels keeps the root exactly when the host does not start with white space |
| Clustering.SpaceLosesRoot | src/modules/clustering/clustering.ts:22-32 | for any two labels, a leading blank is forgiven until a label is put in front of it |
| Clustering.EmailDomainMeans | src/modules/clustering/clustering.ts:35-45 | the email domain is what follows the last at sign, trimmed and in lower case, if it has a dot and no white space |
| Clustering.KeyIdentifiesShared | src/modules/clustering/clustering.ts:51-82 | two clusterable signals get one key exactly when they share the same domain root or the same email domain |
| Clustering.KeyIffShared | src/modules/clustering/clustering.ts:51-82 | a signal is clusterable exactly when it has a domain root or an email domain to share |
| Clustering.SuggestionRecoversShared | src/modules/detection-rules/suggestions.ts:24-61 | the suggested rule recovers exactly the root or email domain that the key encodes |
| Clustering.SuggestionOfCluster | src/modules/detection-rules/suggestions.ts:24-61 | the suggestion takes over the cluster's category and id, and its confidence as a level |
| Intake.ScamSignalsService.Intake | src/modules/scam-signals/scam-signals.service.ts:170-279 | the whole new state of signals, clusters and queue after one intake |
| Intake.ScamSignalsService.ClusterSignal | src/modules/clustering/cluster.service.ts:25-71 | find or create the cluster of the key, link the row, recount |
| Intake.StepKeepsInv | src/modules/scam-signals/scam-signals.service.ts:170-279 | one intake keeps one signal per indicator, the links by key, the cached aggregates and the queue, and adds one report |
| Intake.EveryRun | src/modules/scam-signals/scam-signals.service.ts:170-279 | so after any run, where the report counts sum to the number of intakes |
| Intake.ReportCountExact | src/modules/scam-signals/scam-signals.service.ts:186-246 | each signal counts exactly the intakes that reported its indicator, and every reported indicator has its signal |
| Intake.SignalsFromHistory | src/modules/scam-signals/scam-signals.service.ts:186-246 | in every run, from the intakes alone: a signal was first and last seen at the first and the last intake of its indicator, has the first category, description and text given, the score and status after the last one, and is queued exactly when it was high-risk right after one of them |
| Intake.ClustersFromHistory | src/modules/clustering/cluster.service.ts:25-71 | in every run the clusters are those of the reported indicators, each with the category of its first intake |
| Intake.AggregatesMean | src/modules/clustering/cluster.service.ts:102-118 | the cached columns are the number of members, the greatest confidence, the earliest first and the latest last sighting, each attained by a member |
| Intake.ConfidenceAtMost77 | src/modules/scam-signals/scam-signals.service.ts:201-245 | in every run with base reliability in 0..100 every confidence lies between 16 and 77, and the score attains both |
| Intake.ConfidenceGrows | src/modules/scam-signals/scam-signals.service.ts:361-390 | more reliability, reports or fields never lower the score, and from the fifth report on it stays |
| Intake.SameClusterIffShared | src/modules/clustering/cluster.service.ts:25-71 | with the normalizer and the cluster key in force, in every run: a signal is in a cluster exactly when it has a domain root or an email domain, and two signals are in the same one exactly when these agree |
| FraudGraph.FraudGraphService.EnsureNode | src/modules/fraud-graph/fraud-graph.service.ts:55-134 | the node of the indicator is created, or its count and risk are raised and a missing category filled |
| FraudGraph.FraudGraphService.UpsertEdge | src/modules/fraud-graph/fraud-graph.service.ts:194-216 | written exactly unless it is a self-loop or an end is missing; then one edge under its canonical key changes |
| FraudGraph.FraudGraphService.LinkPeers | src/modules/fraud-graph/fraud-graph.service.ts:137-191 | the loop does what the single link actions do one after the other, and reports how many edges were written |
| FraudGraph.RunThenAll | src/modules/fraud-graph/fraud-graph.service.ts:137-191 | so what is linked from a reachable graph is reachable, and keeps all that every run keeps |
| FraudGraph.FraudGraphService.AddCampaignMember | src/modules/fraud-graph/fraud-graph.service.ts:326-343 | the refusals in order, else the membership edge |
| FraudGraph.FraudGraphService.RemoveCampaignMember | src/modules/fraud-graph/fraud-graph.service.ts:346-360 | exactly the membership edge goes |
| FraudGraph.EveryRun | src/modules/fraud-graph/fraud-graph.service.ts:55-216 | in every run edges have source < target and existing ends, an edge counts its upserts since it was created and has weight and time of the last one; an indicator's columns are the count, the highest risk, the first category and the last time of its projections, a campaign is as created |
| FraudGraph.WritesMeans | src/modules/fraud-graph/fraud-graph.service.ts:194-216 | a link upserts the edge of its type between two different existing nodes, smaller id first, with its weight; an addition the membership, with weight 1 |
| FraudGraph.MemberCheckMeans | src/modules/fraud-graph/fraud-graph.service.ts:326-343 | where ids are not repeated: an addition goes through exactly for a campaign and an indicator, and is not found exactly when there is no such campaign or no such node |
| FraudGraph.OneEdgePerPair | src/modules/fraud-graph/fraud-graph.service.ts:200-210 | one edge per unordered pair and type, no self-loops |
| FraudGraph.RemoveUndoesAdd | src/modules/fraud-graph/fraud-graph.service.ts:326-360 | removing a just-added member restores the graph, whichever id is smaller, exactly when it was not a member before |
| FraudGraph.RemoveLosesOlderEdge | src/modules/fraud-graph/fraud-graph.service.ts:326-360 | some run has an edge that adding the member again and removing it loses |
| Neighbourhood.BallIsDistance | src/modules/identity-graph/identity-collision.service.ts:145-176 | the ball of radius r holds exactly the nodes that a walk of at most r edges reaches |
| Neighbourhood.ShellSuffices | src/modules/identity-graph/identity-collision.service.ts:150-173 | looking around the newest nodes alone finds all nodes one hop further out |
| Neighbourhood.BallStops | src/modules/identity-graph/identity-collision.service.ts:162 | a hop that finds nothing ends the search for good |
| Neighbourhood.Discover | src/modules/identity-graph/identity-collision.service.ts:157-161 | the unknown ends of the edges, each once |
| Neighbourhood.Expand | src/modules/identity-graph/identity-collision.service.ts:151-162 | one hop finds exactly the next shell |
| Neighbourhood.CollectNeighbourhood | src/modules/identity-graph/identity-collision.service.ts:145-176 | distinct nodes within the given number of hops, seed first, exactly min(cap, size of the ball) many, the whole ball when it fits, and otherwise every nearer ball that fits in full |
| Billing.CheckoutGrantsPlan | src/modules/billing/billing.service.ts:293-306 | the price a checkout uses maps back to the plan bought exactly when it is not empty and no other plan compared first is configured with it |
| Billing.BillingService.UpsertSubscription | src/modules/billing/billing.service.ts:313-331 | the given fields are written over the row or over the defaults, the others stay |
| Billing.BillingService.ApplySubscriptionState | src/modules/billing/billing.service.ts:264-290 | the row gets the state of the Stripe subscription, or FREE and CANCELED when it was deleted |
| Billing.BillingService.HandleWebhook | src/modules/billing/billing.service.ts:195-260 | the new table and event log of one attempt, wherever it breaks off, and the reply |
| Billing.BillingService.SetManualInvoice | src/modules/billing/billing.service.ts:156-185 | an existing tenant gets the plan with status MANUAL |
| Billing.EffectiveFromHistory | src/modules/billing/billing.service.ts:67-72 | in every run a tenant holds a paid plan exactly when that plan was the last one written for it and the last status written for it is TRIALING, ACTIVE or MANUAL |
| Billing.AttemptLeaves | src/modules/billing/billing.service.ts:195-331 | the row after a subscription or checkout event, field by field in terms of the payload and the row before: plan by price, status by the provider's word, ids, period and cancellation; every other row, and every row when the attempt does not get to its write or the event names no tenant or customer, is as it was |
| Billing.AttemptLogs | src/modules/billing/billing.service.ts:198-258 | an attempt past its first read logs the event, once and as first delivered; exactly one that runs to its end marks it processed |
| Billing.PlanGranted | src/modules/billing/billing.service.ts:293-306 | the plan a price buys: of the plans configured with it the one compared first, else the one whose code it ends with, else FREE |
| Billing.StatusMapped | src/common/billing/billing-plans.ts:80-95 | which status each word of the provider leads to |
| Billing.OtherRows | src/modules/billing/billing.service.ts:156-185 | a manual invoice sets plan, status and its mark, the start of a checkout the customer id, and nothing else |
| Billing.AttemptsMerge | src/modules/billing/billing.service.ts:195-260 | two attempts at one event in a row leave, in table and log, what the further one leaves alone |
| Billing.WrittenOnce | src/modules/billing/billing.service.ts:190-260 | with faults, redeliveries and retries anywhere, the table is at all times that of each event written once, exactly when every attempt that repeats a write finds a row that still holds the fields it sets |
| Billing.RetryHarmless | src/modules/billing/billing.service.ts:190-260 | in particular when nothing else is written to the tenant's row between an attempt and its retry |
| Billing.RedeliveryHarmless | src/modules/billing/billing.service.ts:190-260 | without faults any redeliveries leave the table of the first deliveries |
| Billing.LateRetryReorders | src/modules/billing/billing.service.ts:195-260 | a retry after an intervening deletion grants the canceled plan again |
| Billing.DeletionHolds | src/modules/billing/billing.service.ts:67-72 | after a deletion was written the effective plan is FREE, through checkouts, redeliveries and attempts that fail before their write, until a creation or update is written or a manual invoice is set |
| Quota.ResetIsNextDay | src/common/auth/api-key.guard.ts:125-127 | the announced reset is the first instant that falls into the next day's counter |
| Quota.AdmittedExactly | src/common/auth/api-key.guard.ts:41-115 | exactly who is admitted: a known, active, unexpired key with all scopes and, on a limited plan, a count below the limit |
| Quota.AnswerMeans | src/common/auth/api-key.guard.ts:41-115 | every answer says what is the case: the first of missing header, invalid key, expiry, missing scopes and used-up quota (plan, limit and reset at the next UTC midnight), or the admitted key's tenant, prefix, scopes and plan |
| Quota.ApiKeyGuard.CanActivate | src/common/auth/api-key.guard.ts:41-115 | the answer, and one more pending increment for an admitted request |
| Quota.ApiKeyGuard.Increment | src/common/auth/api-key.guard.ts:104-112 | a pending increment creates the day's row or adds one to it |
| Quota.Conservation | src/common/auth/api-key.guard.ts:68-112 | in every run counted, pending and lost increments add up to the admitted requests |
| Quota.OvershootBound | src/common/auth/api-key.guard.ts:68-112 | with at most k outstanding increments a limited key gets at most limit + k - 1 requests through in a day, plus the lost increments |
| Quota.SequentialExact | src/common/auth/api-key.guard.ts:68-112 | one at a time without losses: never above the limit, and nobody is refused before the limit is used up |
| Quota.OvershootReached | src/common/auth/api-key.guard.ts:104-112 | for every limited plan, every k and every l some run with at most k outstanding and l lost increments admits exactly limit + k - 1 + l |
| Quota.OvershootExact | src/common/auth/api-key.guard.ts:68-112 | limit + k - 1 + l is the least bound: a number bounds the admissions of all runs with at most k outstanding and l lost increments exactly when it is not below it |
| Quota.QuotaHoldsExactly | src/common/auth/api-key.guard.ts:68-112 | all such runs stay within the limit exactly when k = 1 and l = 0 |
| Luhn.LuhnValid | src/modules/scammirror/sanitizer.ts:59-72 | the loop computes the weighted sum from the right and tests it modulo 10 |
| Luhn.ValidMeans | src/modules/scammirror/sanitizer.ts:59-72 | a digit string is valid exactly when the digits, every second one from the right doubled and its digits added, sum to a multiple of ten |
| Luhn.DetectsSingleChange | src/modules/scammirror/sanitizer.ts:59-72 | every change of one digit is detected (Annex B of ISO/IEC 7812-1), at any length |
| Luhn.DetectsSwap | src/modules/scammirror/sanitizer.ts:59-72 | a swap of neighbours goes unnoticed exactly for equal digits and for 0 with 9 |
| Luhn.OneCheckDigit | src/modules/scammirror/sanitizer.ts:59-72 | exactly one check digit completes any digit string |
| Embedding.Fnv1a | src/modules/ai/embedding-stub.ts:18-25 | the loop computes the 32-bit FNV-1a fold |
| Embedding.FnvVectors | src/modules/ai/embedding-stub.ts:18-25 | it gives the published values for the empty text, "a" and "foobar" |
| Embedding.HistogramTotal | src/modules/ai/embedding-stub.ts:41-46 | the buckets sum to the number of trigrams, n - 2 for a text of length n |
| Embedding.HistogramCounts | src/modules/ai/embedding-stub.ts:41-46 | each bucket holds the number of trigrams that hash to it |
| Embedding.L2Normalize | src/modules/ai/embedding-stub.ts:27-33 | the vector divided by its norm, the zero vector unchanged |
| Embedding.StubEmbed | src/modules/ai/embedding-stub.ts:36-51 | nothing for fewer than three characters, else the normalized histogram |
| Embedding.SameWordsEmbedAlike | src/modules/ai/embedding-stub.ts:36-51 | texts equal up to case and runs of white space have the same embedding |
| Embedding.EmbeddingIsUnit | src/modules/ai/embedding-stub.ts:27-51 | every embedding has unit norm and no negative entry |
| Embedding.CosineSimilarity | src/modules/ai/embedding-stub.ts:54-66 | the clamped dot product, 0 for vectors that cannot be compared |
| Embedding.CauchySchwarz | src/modules/ai/embedding-stub.ts:58-65 | the square of a dot product is at most the product of the squared norms |
| Embedding.UnitDot | src/modules/ai/embedding-stub.ts:54-66 | unit vectors have a dot product in [-1, 1], and 1 exactly when they are equal |
| Embedding.SimilarityInRange | src/modules/ai/embedding-stub.ts:35-66 | the similarity of two embedded texts is their dot product, in [0, 1], so neither clamp acts; texts with the same words up to case give 1 |
| Embedding.StubSimilarityInRange | src/modules/ai/embedding-stub.ts:18-66 | so it is with the FNV-1a hash of the trigrams |
| CorsMatcher.CompileCorrect | src/common/cors/cors-matcher.ts:28-33 | escaping and replacing is right: read as a regular expression, where an unescaped dot is any character and other syntax is no literal, the source is the pattern, `*` as one dot-free segment, all else literally |
| CorsMatcher.GlobAccepts | src/common/cors/cors-matcher.ts:26-37 | a glob accepts exactly the origins that arise by replacing each `*` with a dot-free text |
| CorsMatcher.GlobKeepsShape | src/common/cors/cors-matcher.ts:9-13 | an accepted origin has exactly the pattern's dots and its literal start and end |
| CorsMatcher.ListAccepts | src/common/cors/cors-matcher.ts:39-47 | the list accepts exactly when there is no origin or some entry stands for it |

## Left out

- Billing.WrittenOnce: deliveries are handled one after another; two handlers of one event at the same time are not modelled, because the unique event id turns the second first delivery into a failed attempt.
- RegistryService.CachedSearchRefinesUncached: search and the actions are atomic here; `SearchRace` splits them for one node.
- SearchRace.RightUnlessRaced: split searches on several nodes at once are not modelled; each update of the registry is atomic with its evidence.
- RegistryLifecycle.EveryRun: every action is atomic with its evidence and runs alone; in the code the status update and the append are separate, and two concurrent candidates for one signal can both pass the duplicate check.
- Intake.EveryRun: intakes run one after another; find and create are separate statements in the code, so concurrent first reports can make two signals.
- Neighbourhood.CollectNeighbourhood: generalizes the two hops and the node cap of the code to any numbers.
- Cache.CacheService.Set: the bound of 1000 entries is any positive number; the code only ever uses 1000.
- InvalidationProtocol.Coherence: delivery is lossless; a lost message, or a node without a bus, can leave an entry until it expires.
- Quota.OvershootBound: the key lookup, expiry test and day are taken at one instant per request.
- Text outside ASCII in normalization, clustering, search and globs: Unicode case and white space are not modelled; the canonical printer does cover all UTF-16 text.
- Number formatting in the canonical printer: a number is represented by the text that the language prints for it, which is a JSON number.
- Sparse arrays, functions, dates and other non-JSON objects as metadata, and text that the database refuses (NUL, lone surrogates).
- SHA-256 and square root are parameters; sums and quotients are exact reals, without floating-point rounding.
- `contains` in search is plain substring; the database's wildcard characters are not modelled.
- Public columns that no modelled action writes: publicStatus, recommendedAction, firstSeen, evidenceCount.
- Order of search results with equal lastSeen: fixed to table order, where the database may choose.
- `normalizeDomain` and `normalizeUrl` are modelled but not idempotent (`www.www.x`, a space before a slash), so nothing of the kind is stated.
- The evidence rows and audit rows written by intake, clustering, billing and the graph; only the registry's log is modelled, where replay needs it.
- The review queue beyond opening items, cluster status, and reviewer actions on signals; masking and labels of graph nodes; the assembly of collision results.
- NLP, embedding and OSINT enrichment of signals, webhooks to partners, and takedown automation: best effort, with no effect on the modelled state.
- Checkout and portal sessions, production checks and the Stripe client: only the subscription fields they write are modelled.
- Extraction of card numbers and the other sanitizer patterns, additive scorers, protection policies and rule lists: finite tables that add no state.
- Controllers, request validation, user authentication, queues, storage and other network clients.
