# TrustDB client, SDK and CLI protocols in Dafny

This project models eight pieces of TrustDB in Dafny 4.11 and proves what they promise.

| module | piece |
|---|---|
| `TlsManager` | the lifecycle of the reloading TLS policy manager: `Start`, `Reload`, `Close` and the error callback, as interleaved atomic steps of any number of goroutines |
| `Text`, `RecordSearch`, `RecordCut`, `RecordKeys`, `RecordStore`, `RecordScan`, `RecordPages`, `RecordDB` | the desktop client's record index: keys, search tokens, batches, counters, scans, pages and the legacy import |
| `LogBatch`, `LogStream` | native batch and stream submission of log claims against an arbitrary server |
| `NatsResult` | waiting for an ingress result on an immutable result stream |
| `SigningGate` | the signing gate of a desktop identity and the swap of identities |
| `CheckpointAdvance`, `JsonStructure` | FISCO BCOS checkpoint advancement under a lock file, and the strict JSON structure check |
| `LoadBalancer` | rotation, failover and the cache of subscription owners |
| `Paging`, `ProofMigration` | the restartable, paged copy of a proof store |
| `Wrappers` | the option type all of them share |

Concurrent protocols are state machines: a state, a step datatype, `Enabled` and `Apply`, an inductive
invariant, and theorems over every run (`IsRun`, `End`, `Reachable`). Code that changes an object or
loops is a class or a method proved against a specification, and the promises are proved about that
specification. Libraries (time parsing, Unicode classes, digests, CBOR, evidence verification) are
function parameters with the contract a proof needs.

## Results that differ from what a reader might expect

- A publish of a new TLS snapshot can still happen after `closed` is set, although the comment in
  `Close` says otherwise; it cannot after `Close` returned (`TlsManager.PublishWhileClosing`,
  `TlsManager.PublishAfterClosedHappens`, `TlsManager.QuietAfterClose`).
- The error callback signals its start before it calls `onError`, so `onError` itself may begin after
  `Close` returned, and exactly then (`TlsManager.LateOnErrorExactly`, `TlsManager.LateOnErrorHappens`).
- A text query lists a matching record if and only if the token of the query is among the first 48
  distinct tokens of the record, in the order file name, path, batch ID, record ID, event type
  (`RecordPages.TokenListedExactly`). A record ID is a run of 55 letters and digits with 107 windows, so
  nearly every record is cut. A search for the whole ID of a record whose ID has 48 different pairs of
  characters does not list it unless an earlier field contains its first three
  (`RecordPages.OwnIDNotListed`, `RecordPages.SampleNotListed`). A match in a file name of at most 24
  characters is always listed (`RecordPages.NameMatchListed`).
- A record that matches only through `ContentHashHex` is missed as well unless an indexed field contains
  the token (`RecordPages.TokenListing`, `RecordPages.HashOnlyMissed`).
- A record timed before 1970 sorts as if it were the newest (`RecordKeys.NewestFirst`).
- A total marked exact counts all records of the level and ignores the other filters; it is right in
  every store exactly for requests that filter by nothing but a level (`RecordDB.TotalRightExactly`).
- Batch slots no server index reached name index 0; they never pass validation (`LogBatch.ZeroItemFails`).
  They come after the slot of index 0, so if the server leaves any claim out, the first claim sent is
  reported as malformed and its receipt is lost even if the server accepted it; every other entry is
  reported as answered (`LogBatch.RelayedExactly`, `LogBatch.FirstLost`).
- A gRPC reply with a negative index and no error makes the transport return no results and no error;
  only the count check of the native batch rejects it (`LogBatch.GrpcSubmit`).
- The agreement of NATS waiters depends on the checked stream configuration
  (`NatsResult.OtherStreamsDisagree`).
- `trust-config create` writes the same file without taking the advance lock. An advance overwrites a
  created config unseen exactly when the create fell between its read and its write
  (`CheckpointAdvance.OverwritesExactly`, `CheckpointAdvance.LostUpdate`); no advance is ever lost
  (`CheckpointAdvance.SingleChain`).
- `SubscribeStatusRefresh` does not fall back when the cached owner is stale, unlike reads and deletes
  (`LoadBalancer.Balancer.SubscribeStatusRefresh`).
- Round robin repeats an endpoint at the wrap of its counter unless the number of endpoints divides
  2^64 (`LoadBalancer.CyclesThroughWrap`).
- A migration reaches a leaf or tree head only if none below it is missing
  (`ProofMigration.RangeExactly`), loses documents that share a cursor across a page boundary
  (`ProofMigration.WholeListing`, `ProofMigration.RootLost`: roots with one close time, tiles that
  differ only in width), and does not copy a bundle no manifest names (`ProofMigration.OrphanLeft`).
  These are all its losses (`ProofMigration.EverythingExactly`).

## Model

| member | source | states |
|---|---|---|
| TlsManager.StepKeepsInv | transporttls/manager.go:102-228 | every step of any goroutine keeps the invariant over the two mutexes, the wait group, the channels and the callback handshake |
| TlsManager.ReachableInv | transporttls/manager.go:102-228 | the invariant holds in every state of every run |
| TlsManager.OneCallback | transporttls/manager.go:135-162 | in every reachable state at most one error callback exists |
| TlsManager.ClosedStep | transporttls/manager.go:135-195 | once closed, no step adds to the wait group or accepts a callback, and only a Reload already at its publish changes the snapshot |
| TlsManager.QuietAfterClose | transporttls/manager.go:164-228 | after any Close has returned, in every continuation the snapshot never changes, no callback is accepted and none signals its start |
| TlsManager.PublishWhileClosing | transporttls/manager.go:164-228 | after closed is set the snapshot can still change if and only if some Reload stands at its publish with a different snapshot |
| TlsManager.PublishAfterClosedHappens | transporttls/manager.go:164-228 | a reachable run in which closed is set and the snapshot is replaced afterwards, for every new snapshot |
| TlsManager.LateOnErrorExactly | transporttls/manager.go:135-162 | after Close returned, onError can still begin if and only if the one callback is between its signal and its call |
| TlsManager.LateOnErrorHappens | transporttls/manager.go:135-195 | a reachable run in which it does |
| TlsManager.NotStuck | transporttls/manager.go:164-228 | while any Reload or Close is in progress, also a Close inside the callback, some goroutine of the manager can take its own next step |
| TlsManager.EveryCloseReturns | transporttls/manager.go:102-228 | the manager's own steps are bounded by a measure of the state, and when none is left no Reload or Close is pending |
| TlsManager.ReloadReports | transporttls/manager.go:199-228 | for every Reload of every run, over the stretch in which it holds the reload mutex: it reports success if and only if the snapshot was set in that stretch, once, to what it loaded; closed if and only if one of its two checks found the manager closed; failure if and only if its load gave none; unless it reports success the snapshot is as it was |
| TlsManager.DispatchesFailures | transporttls/manager.go:102-133 | the worker goes on to the error callback if and only if the load of its Reload gave none |
| Text.Utf8Injective | clients/desktop/records_db.go:402-404 | different strings have different key bytes |
| Text.PrefixBounds | clients/desktop/records_db.go:475-479 | the iterator bounds [p, p+0xff) select exactly the keys that start with p |
| Text.DecodeEncode | clients/desktop/records_db.go:481-504 | unpadded base64url (section 5 of RFC 4648) decodes to what was encoded |
| Text.DigitsOrder | clients/desktop/records_db.go:457-473 | fixed-width decimals of smaller numbers are smaller byte strings, whatever follows them |
| RecordSearch.SearchTokens | clients/desktop/records_db.go:579-602 | the scan with its builder yields the maximal runs of letters and digits |
| RecordSearch.AddWindows | clients/desktop/records_db.go:543-562 | the loop over one window width collects like a scan of all windows, with the set in step with the list |
| RecordSearch.AddWord | clients/desktop/records_db.go:543-562 | a word contributes itself if short, then its windows, up to the cap of 48 |
| RecordSearch.RawTokens | clients/desktop/records_db.go:523-529 | the words of the five indexed fields in order |
| RecordSearch.RecordTokens | clients/desktop/records_db.go:523-563 | the token list of a record |
| RecordSearch.CollectKeeps | clients/desktop/records_db.go:530-563 | the collected list has no repeats and holds all distinct tokens unless it was cut at 48 |
| RecordSearch.GramsAre | clients/desktop/records_db.go:543-562 | the two and three character tokens of a word are exactly its substrings of those lengths |
| RecordSearch.WordsCover | clients/desktop/records_db.go:579-602 | a run of letters and digits occurs in a text exactly when it occurs in one of its words |
| RecordSearch.TrimKeeps | clients/desktop/records_db.go:579-602 | trimming and lowering a text does not change which runs of letters and digits it contains |
| RecordSearch.AllGramsAre | clients/desktop/records_db.go:523-563 | a token is generated from a record exactly when an indexed field contains it |
| RecordSearch.TokensAre | clients/desktop/records_db.go:523-563 | for a record with at most 48 distinct tokens, the index holds a token exactly when an indexed field contains it |
| RecordSearch.QueryTokenIs | clients/desktop/records_db.go:565-577 | the token of a query is a run of two or three letters and digits inside the normalized query |
| RecordSearch.QueryTokenExactly | clients/desktop/records_db.go:565-577 | the token of a query begins where two letters or digits first stand together, has three characters if a third belongs to the run, and is empty if and only if no two stand together |
| RecordSearch.MatchHasToken | clients/desktop/store.go:473-480 | a record that matches a query through an indexed field contains the token of the query |
| RecordCut.CollectExactly | clients/desktop/records_db.go:530-563 | the capped loop collects a token if and only if it comes up while fewer than 48 distinct ones have gone before |
| RecordCut.TokenIndexed | clients/desktop/records_db.go:523-563 | for every record: a token is indexed if and only if it is among the first 48 |
| RecordCut.AllIndexed | clients/desktop/records_db.go:523-563 | every token of a record is indexed if and only if it has at most 48 |
| RecordCut.NameIndexed | clients/desktop/records_db.go:523-563 | a token in a file name with at most 48 distinct tokens is indexed, whatever the other fields hold |
| RecordCut.ShortName | clients/desktop/records_db.go:538-562 | a file name of at most 24 characters has at most 48 distinct tokens |
| RecordCut.OwnIDCut | clients/desktop/records_db.go:523-563 | an ID with 48 different pairs of characters cuts off its own first three, unless an earlier field contains them |
| RecordCut.SampleWindows | internal/claim/claim.go:313-316 | an ID of the form the server gives that has 48 different pairs |
| RecordKeys.SortKey | clients/desktop/records_db.go:457-473 | the sort key is the distance to the end of time with the wrap-around clamped to zero |
| RecordKeys.SortedByFirst | clients/desktop/records_db.go:457-473 | a record is sorted by the first of its times that is set: submission as a number, submission as text, last synchronisation as a number, then as text |
| RecordKeys.ContentHashExactly | clients/desktop/records_db.go:604-621 | a content hash is 64 hexadecimal digits after sha256: or sm3: or both in this order or neither, in lower case and trimmed |
| RecordKeys.NewestFirst | clients/desktop/records_db.go:457-473 | the index order over all records: the later one first, where a time before 1970 counts as the latest, and records of one time by ID |
| RecordKeys.SlotsAre | clients/desktop/records_db.go:430-455 | which of the index families a record is filed under, and under which values |
| RecordKeys.IndexKeysAre | clients/desktop/records_db.go:430-463 | the index keys of a record are the prefixes of its slots followed by its suffix |
| RecordKeys.PartInjective | clients/desktop/records_db.go:481-486 | different values never share an encoded key part |
| RecordKeys.SuffixInjective | clients/desktop/records_db.go:457-463 | records with one index suffix have one ID |
| RecordKeys.LevelKeyInjective | clients/desktop/records_db.go:406-408 | different levels have different counters |
| RecordKeys.PrefixSeparates | clients/desktop/records_db.go:410-455 | no key of one slot starts with the prefix of another |
| RecordKeys.KeysDisjoint | clients/desktop/records_db.go:430-463 | records with different IDs share no index key |
| RecordStore.KeysOfSeparates | clients/desktop/records_db.go:402-486 | index keys lie in an area of their own and records with different IDs share none |
| RecordStore.KeyArea | clients/desktop/records_db.go:402-455 | an index key is neither a counter nor a record key |
| RecordStore.CommitReplace | clients/desktop/records_db.go:87-131 | a batch of deletes, then puts, has the effect of replacing the record with its index entries |
| RecordStore.UpsertAgrees | clients/desktop/records_db.go:87-131 | an upsert keeps the index keys exactly those of the stored records and the counters exactly their numbers |
| RecordStore.DeleteAgrees | clients/desktop/records_db.go:181-203 | so does a delete |
| RecordStore.ChunkAgrees | clients/desktop/records_db.go:133-179 | a chunk of distinct IDs, looked up before it is committed, keeps the index exact and touches nothing else |
| RecordStore.RebuiltAgrees | clients/desktop/records_db.go:359-400 | dropping all counters and writing the counts of a full listing makes the counters exact |
| RecordStore.IndexFrame | clients/desktop/records_db.go:312-328 | changes outside records and index entries keep the index exact |
| RecordScan.SortKeys | clients/desktop/records_db.go:275-310 | the iterator order: the keys, each once, in byte order |
| RecordScan.Iterate | clients/desktop/records_db.go:275-310 | the keys under a prefix |
| RecordScan.Seek | clients/desktop/records_db.go:275-310 | the keys under a prefix strictly after the cursor |
| RecordScan.KeyIsUnder | clients/desktop/records_db.go:275-310 | a key found under a prefix belongs to a stored record filed in that slot and points to it |
| RecordScan.VisitedInOrder | clients/desktop/records_db.go:275-310 | the scan visits records in suffix order |
| RecordScan.ScanGivesHits | clients/desktop/records_db.go:214-310 | the scan visits exactly the hits of the query after the cursor, in order |
| RecordPages.MatchesExactly | clients/desktop/records_db.go:506-521 | a record passes if and only if every filter that is set equals its level, batch, tenant or client, and the normalized query is empty or occurs in its file name, path, ID, content hash, batch or event type |
| RecordPages.PlainListing | clients/desktop/records_db.go:410-428 | level, batch, tenant and client filters: the indexed listing is the plain filter over all records |
| RecordPages.TokenListedExactly | clients/desktop/records_db.go:410-428 | text queries, for every record: it is listed if and only if it matches and the token of the query is among its first 48 |
| RecordPages.TokenListing | clients/desktop/records_db.go:410-428 | the case of a record with at most 48 distinct tokens: it is listed if and only if it matches and an indexed field contains the token |
| RecordPages.TextMatchListed | clients/desktop/records_db.go:506-521 | such a record is listed whenever it matches through an indexed field |
| RecordPages.NameMatchListed | clients/desktop/records_db.go:410-428 | a record whose file name contains the token and is short, or has at most 48 distinct tokens, is listed if and only if it matches |
| RecordPages.OwnIDNotListed | clients/desktop/records_db.go:523-577 | a search for the whole ID of such a record matches it through an indexed field and does not list it |
| RecordPages.SampleNotListed | internal/claim/claim.go:313-316 | one such record, with an ID of the form the server gives |
| RecordPages.HashListing | clients/desktop/records_db.go:604-621 | content hash queries: a matching record is listed if and only if its hash is the one asked for |
| RecordPages.HashOnlyMissed | clients/desktop/store.go:473-480 | one record and query: it matches through its content hash, no indexed field contains the token, and it is not listed |
| RecordPages.CursorRoundTrip | clients/desktop/records_db.go:488-504 | a decoded cursor is the suffix that was encoded |
| RecordPages.ExactlyOnce | clients/desktop/records_db.go:214-310 | following NextCursor from the start, over a store that changes between pages, returns every record that stays with its sort key exactly once |
| RecordPages.ReturnedOnce | clients/desktop/records_db.go:214-310 | the same from any cursor that has not passed the record |
| RecordPages.NeverAgain | clients/desktop/records_db.go:214-310 | a record the cursor has passed is not returned again |
| RecordPages.PagesInOrder | clients/desktop/records_db.go:214-310 | everything on a page comes after everything on the page before, whatever changed in between |
| RecordDB.LocalRecordDB.Get | clients/desktop/records_db.go:68-85 | the stored record or none |
| RecordDB.LocalRecordDB.Upsert | clients/desktop/records_db.go:87-131 | the record map is updated, index and counters stay exact, a record without ID changes nothing |
| RecordDB.LocalRecordDB.Delete | clients/desktop/records_db.go:181-203 | the record is removed, index and counters stay exact |
| RecordDB.LocalRecordDB.ListAll | clients/desktop/records_db.go:205-212 | every record once, in the order of the time index |
| RecordDB.LocalRecordDB.ListPage | clients/desktop/records_db.go:214-273 | a page is the right cut of the ordered hits with its cursor; its total is the counter when marked exact, what is known to be there otherwise, and the number of matches whenever nothing but a level is filtered |
| RecordDB.LocalRecordDB.RebuildCounters | clients/desktop/records_db.go:359-400 | the counters become exact, the records stay |
| RecordDB.LocalRecordDB.UpsertMany | clients/desktop/records_db.go:133-179 | after a crash at any chunk exactly a first part of the records is imported with an exact index; when done the counters are exact too |
| RecordDB.LocalRecordDB.ImportNext | clients/desktop/records_db.go:133-179 | the chunk at a position extends what was imported by exactly that chunk |
| RecordDB.LocalRecordDB.ImportChunk | clients/desktop/records_db.go:133-179 | one batch imports one chunk |
| RecordDB.LocalRecordDB.MarkMigrated | clients/desktop/records_db.go:64-66 | the migration mark is set, every other key keeps its value |
| RecordDB.LocalRecordDB.MigrateLegacy | clients/desktop/store.go:413-437 | a run stopped anywhere leaves part of the legacy records; a complete one exactly the legacy records, marked; a marked store is not touched |
| RecordDB.LocalRecordDB.ImportAll | clients/desktop/store.go:413-437 | the import of the legacy map, complete or stopped after any chunk |
| RecordDB.LoadLegacy | clients/desktop/store.go:439-471 | for every ID, over positions: it is present if and only if the last log line that names it is an upsert, or no line does and some config record has it; with the value of the last such upsert, otherwise of the last such config record; never the empty ID |
| RecordDB.LegacySays | clients/desktop/store.go:439-471 | the same of the fold over config records and log lines |
| RecordDB.SaysAll | clients/desktop/store.go:439-471 | these conditions leave one map: two maps that meet them are equal |
| RecordDB.OpenAgain | clients/desktop/store.go:413-471 | however often the import is interrupted, reopening until it completes leaves exactly the records config and log say, by the same positions, with exact indexes and counters |
| RecordDB.Visit | clients/desktop/records_db.go:214-250 | the scan callback keeps the hits from the offset up to one past the limit |
| RecordDB.CutPage | clients/desktop/records_db.go:240-273 | the page cut from one hit more than fits, with the cursor of its last item |
| RecordDB.BuildPage | clients/desktop/records_db.go:214-273 | the page cut from the visited hits |
| RecordDB.ExactTotal | clients/desktop/records_db.go:252-262 | the total marked exact is the number of matches if and only if every record of the level (of the store, without a level filter) passes the other filters |
| RecordDB.LevelTotal | clients/desktop/records_db.go:252-262 | without a filter, or with a level as the only one, the total is marked exact and is the number of matches |
| RecordDB.SecondFilterMiscounts | clients/desktop/records_db.go:252-262 | for every other request with a total marked exact, a store on which it is one and nothing matches |
| RecordDB.TotalRightExactly | clients/desktop/records_db.go:410-428 | a total marked exact is right in every store if and only if nothing but a level is filtered |
| LogBatch.BuildAll | sdk/log.go:396-446 | in whatever order the workers take the entries, every entry ends built or failed at its own position |
| LogBatch.Compact | sdk/log.go:447-455 | the in-place compaction keeps the built claims in order and remembers where each came from |
| LogBatch.Place | sdk/log.go:467-479 | each reply goes to the entry its index stands for after validation against that entry's claim; an index out of range rejects the reply |
| LogBatch.MarkRest | sdk/log.go:480-484 | an entry no reply reached is reported as not submitted; at every other built entry stands the last item that names it |
| LogBatch.CountResults | sdk/log.go:822-833 | submitted plus failed is the number of entries, failed the number with an error |
| LogBatch.SubmitNative | sdk/log.go:396-489 | for every server reply and every acceptance check, per entry: one that was not built says so, one no item names is not submitted, and any other has the response and error of the last item for it, without error if and only if that item has none and its response is accepted for the entry's own claim; submitted is the number of entries so accepted; rejected if and only if the reply is missing, has the wrong count or an index out of range; success if and only if all built and the indexes are a permutation of validated results |
| LogBatch.Ranked | sdk/log.go:447-455 | the claim of a built entry is sent at the number of entries built before it |
| LogBatch.AcceptedExactly | sdk/log.go:464-488 | an entry is without an error if and only if the last item for it was accepted |
| LogBatch.AcceptedCounted | sdk/log.go:480-488 | as many entries are counted as submitted as were accepted |
| LogBatch.Pigeonhole | sdk/log.go:464-489 | n replies that reach n positions have distinct indexes |
| LogBatch.Covers | sdk/log.go:464-489 | n distinct indexes below n reach every position |
| LogBatch.ZeroItemFails | sdk/client.go:694-767 | a zero slot never passes validation |
| LogBatch.HttpSubmit | sdk/http_transport.go:88-122 | the HTTP slots: accepted if and only if the count is right and all indexes are in range; a slot holds the last reply naming it or is zero |
| LogBatch.HttpCovered | sdk/http_transport.go:88-122 | if every slot passes, the server named every position |
| LogBatch.GrpcSubmit | sdk/grpc_transport.go:211-247 | the gRPC slots: filled if and only if the count is right and all indexes are in range, each with the last item naming it or zero; otherwise an error, or no results without an error when the first index out of range is negative and carries none |
| LogBatch.GrpcCovered | sdk/grpc_transport.go:211-247 | if every slot passes, the stream named every position |
| LogBatch.HttpPermutes | sdk/http_transport.go:88-122 | if everything went right, the indexes the server chose are a permutation of the positions |
| LogBatch.GrpcPermutes | sdk/grpc_transport.go:211-247 | the same for the indexes of the stream |
| LogBatch.SlotsRelay | sdk/http_transport.go:88-122 | what the slots make of the server's items, per entry: the last item for it, or not submitted; for the first claim sent, malformed if any claim was left out |
| LogBatch.RelayedExactly | sdk/grpc_transport.go:211-247 | an entry is reported as submitted if and only if its answer was accepted and, for the first claim sent, no claim was left out |
| LogBatch.FirstLost | sdk/http_transport.go:101-120 | for every accepted response: two entries, the server answers the first twice, and the first is reported as malformed |
| LogBatch.HttpExactly | sdk/http_transport.go:88-122 | the same for the server's HTTP replies: reported as submitted if and only if the last reply for it is a result accepted for its claim and, for the first claim sent, no claim was left out |
| LogBatch.SubmitOverHttp | sdk/log.go:396-489 | a whole batch over HTTP, over the server's own replies: what every entry is reported as, by the kind of the last reply for it; how many are counted as submitted; when the batch is rejected; and success only if the server named every position exactly once |
| LogBatch.SubmitOverGrpc | sdk/log.go:396-489 | a whole batch over gRPC, over the items of the stream: what every entry is reported as, how many are counted as submitted, when the batch is rejected, and success only if the stream named every position exactly once |
| LogStream.StepKeepsInv | sdk/log.go:569-681 | every step of builders, transport, server and receiver keeps the invariant on the expected-claim map |
| LogStream.EverySuccessEarned | sdk/grpc_transport.go:249-343 | in every run, for every server and every acceptance check, a success is for an index handed to the transport, its response was accepted for that entry's own claim, and it is the only success for that index |
| LogStream.AnswerDelivered | sdk/grpc_transport.go:249-343 | in every reachable state a response to a claim that was sent reaches the caller with the entry's own claim, as a success if and only if the index is still expected and the response is accepted |
| LogStream.ClaimSent | sdk/log.go:569-681 | an entry that is built becomes expected and is sent with its own claim |
| LogStream.FailureDelivered | sdk/log.go:569-681 | an entry that cannot be built is reported with its own index |
| NatsResult.SubjectForm | sdk/nats_ingress.go:498-515 | there is a result subject if and only if the pattern is a concrete subject followed by a dot and a star and the ID is not blank: that subject, a dot and the ID |
| NatsResult.SubjectsDiffer | sdk/nats_ingress.go:498-515 | different message IDs have different result subjects |
| NatsResult.StepKeepsInv | sdk/nats_ingress.go:219-287 | every step keeps the invariant and a stored result never changes |
| NatsResult.WaitersAgree | sdk/nats_ingress.go:219-287 | in every run a waiter takes exactly the stored message, and waiters for one subject agree for ever |
| NatsResult.NeverLeftWaiting | sdk/nats_ingress.go:219-287 | once the result is committed a waiting waiter has it at the head of its queue and takes it next |
| NatsResult.WaitsAndTakes | sdk/nats_ingress.go:219-287 | a waiter that starts before there is a result waits and takes the one that is published then |
| NatsResult.OtherStreamsDisagree | sdk/nats_ingress.go:445-496 | on any stream the configuration check refuses, a run exists in which two waiters take different results |
| SigningGate.StepKeepsInv | clients/desktop/identity.go:92-155 | every step of signers and swappers keeps the invariant |
| SigningGate.DestroyedUnused | clients/desktop/identity.go:92-155 | while a signature is in progress its signer is not destroyed |
| SigningGate.NoSignatureAfterClose | clients/desktop/identity.go:454-497 | after close has returned the signer is destroyed and every later sign attempt fails, through any handle, in every continuation |
| SigningGate.OneCloserEach | clients/desktop/app.go:902-920 | no two goroutines close one identity and the current one is never being closed |
| SigningGate.CurrentUsable | clients/desktop/app.go:873-920 | the current identity is neither revoked nor destroyed |
| SigningGate.SignatureBegins | clients/desktop/identity.go:124-132 | in every reachable state an attempt to sign begins a signature, counted once, if and only if the identity is not revoked; with the current identity it always does |
| SigningGate.DisplacedClosed | clients/desktop/app.go:902-920 | in every reachable state a displaced identity is being closed or its close has returned |
| SigningGate.LockedUntilInstall | clients/desktop/app.go:912-920 | after a lock, in every continuation without an install, there is no current identity and nothing is handed out |
| SigningGate.InstalledSigns | clients/desktop/app.go:873-910 | an installed identity is the current one, its predecessor is being closed, and once handed out it signs |
| SigningGate.CloseNotStuck | clients/desktop/identity.go:143-155 | a close that cannot go on waits for a signature that can end, and each step brings it nearer |
| SigningGate.SignaturesOnlyEnd | clients/desktop/identity.go:124-155 | after revoke the number of signatures never rises and falls with each that ends |
| JsonStructure.AcceptedExactly | cmd/trustdb/fiscobcos_trust_config_cmd.go:333-426 | accepted are exactly the printings of one tree with nesting at most 16, distinct snake_case keys, at most 64 keys per object and 2048 values per array, with nothing after it |
| JsonStructure.ValueSound | cmd/trustdb/fiscobcos_trust_config_cmd.go:348-426 | what is consumed as a value is the printing of a bounded tree |
| JsonStructure.ValueComplete | cmd/trustdb/fiscobcos_trust_config_cmd.go:348-426 | the printing of a bounded tree is consumed whole |
| JsonStructure.FieldsComplete | cmd/trustdb/fiscobcos_trust_config_cmd.go:348-426 | the same for the rest of an object, given the keys seen before |
| JsonStructure.Decoder.Consume | cmd/trustdb/fiscobcos_trust_config_cmd.go:348-426 | the recursive loop agrees with the reading function on acceptance and on the position, and terminates |
| JsonStructure.Decoder.ConsumeObject | cmd/trustdb/fiscobcos_trust_config_cmd.go:348-426 | the same for the object loop with its set of keys |
| JsonStructure.Decoder.ConsumeArray | cmd/trustdb/fiscobcos_trust_config_cmd.go:348-426 | the same for the array loop with its count |
| JsonStructure.ValidateStructure | cmd/trustdb/fiscobcos_trust_config_cmd.go:333-346 | the whole check returns true exactly for printings of one bounded tree |
| CheckpointAdvance.AdvanceExactly | internal/anchor/fiscobcos/validator_transitions.go:58-89 | an advancement is granted if and only if the config is valid, the evidence verifies, the height rises, the generation does not overflow and the successor is well-formed; its result is that successor, field by field |
| CheckpointAdvance.AdvanceSteps | internal/anchor/fiscobcos/validator_transitions.go:58-89 | an advancement takes height and hash from the proof and validators from the verified history, adds one to the generation without wrap, records the digest of its predecessor and keeps the rest |
| CheckpointAdvance.StepKeepsInv | cmd/trustdb/fiscobcos_trust_config_cmd.go:146-206 | every step of every run, with failures and crashes anywhere, keeps the invariant |
| CheckpointAdvance.OneHolder | cmd/trustdb/fiscobcos_trust_config_cmd.go:150-172 | at most one run is past the lock, and the lock is its own |
| CheckpointAdvance.SingleChain | cmd/trustdb/fiscobcos_trust_config_cmd.go:173-206 | in every history every installed config was derived from the config its run read, whose digest the caller expected; since that read only creates wrote, so no advance is lost; a run installs once |
| CheckpointAdvance.NeverBackwards | cmd/trustdb/fiscobcos_trust_config_cmd.go:146-206 | along every stretch of advances, from the config the first one read, heights rise, generations count, and each installed config is the successor of the one its run read by the proof of that run |
| CheckpointAdvance.OneWinner | cmd/trustdb/fiscobcos_trust_config_cmd.go:146-206 | of runs with one expected digest at most one installs along a stretch of advances, unless two different configs share a digest |
| CheckpointAdvance.SuccessInstalled | cmd/trustdb/fiscobcos_trust_config_cmd.go:146-216 | a run that reports success has installed |
| CheckpointAdvance.Undisturbed | cmd/trustdb/fiscobcos_trust_config_cmd.go:146-216 | from every state, a run nothing fails or interferes with succeeds if and only if the lock is free, the file holds the expected config and the advancement is granted; it then installs the successor, otherwise leaves the file alone, and the lock is as before |
| CheckpointAdvance.CrashFreezes | cmd/trustdb/fiscobcos_trust_config_cmd.go:150-172 | the lock of an ended run freezes the file against all other advances until an operator acts |
| CheckpointAdvance.OverwritesExactly | cmd/trustdb/fiscobcos_trust_config_cmd.go:173-206 | for every run between a read and its write: the config replaced is the one read if and only if no create ran in between; otherwise the last of those creates is overwritten unseen |
| CheckpointAdvance.LostUpdate | cmd/trustdb/fiscobcos_trust_config_cmd.go:241-281 | for every config that can be advanced and every other one, a run in which a create is overwritten that way |
| LoadBalancer.RotationOnce | sdk/load_balance.go:93-104 | a rotation names every endpoint exactly once, by subtraction as by remainder |
| LoadBalancer.FairStarts | sdk/load_balance.go:86-91 | over any window before the counter wraps each endpoint starts the floor or the ceiling of its share, exactly its share over whole rounds |
| LoadBalancer.CyclesThroughWrap | sdk/load_balance.go:86-91 | the starts keep cycling through the wrap of the counter if and only if the number of endpoints divides 2^64 |
| LoadBalancer.ScanExplains | sdk/load_balance.go:93-119 | how a scan ended says what every endpoint before answered and that the context was alive |
| LoadBalancer.SucceedsExactly | sdk/load_balance.go:93-119 | an operation succeeds if and only if some endpoint answers and all before it failed retryably |
| LoadBalancer.StopsExactly | sdk/errors.go:71-94 | with another endpoint left, an error ends the operation if and only if it is the SDK's own, not marked retryable, not a bare wrapped error, and its status is none of 408, 429 and 502 to 504 |
| LoadBalancer.Try | sdk/load_balance.go:93-119 | the loop with the wrapped index refines the scan of the rotated list and calls a prefix of it |
| LoadBalancer.TryCreate | sdk/load_balance.go:185-209 | a create calls the subscribing endpoints of the rotation in order, each but the last refused, and gives up only when all did |
| LoadBalancer.AskFindsHolder | sdk/load_balance.go:251-282 | if all other endpoints answer not-found the scan stops at the holder |
| LoadBalancer.AskPassesExactly | sdk/load_balance.go:251-282 | an answer is passed on if and only if it is an SDK error with status 404 or code NOT_FOUND |
| LoadBalancer.Balancer.StartIndex | sdk/load_balance.go:86-91 | the start is the counter modulo the number of endpoints, and the counter wraps at 2^64 |
| LoadBalancer.Balancer.TryEndpoints | sdk/load_balance.go:93-119 | an operation scans the list rotated to its start |
| LoadBalancer.Balancer.CreateStatusSubscription | sdk/load_balance.go:185-209 | the endpoint that created a subscription becomes its cached owner |
| LoadBalancer.Balancer.WithOwner | sdk/load_balance.go:251-282 | a status read reaches the holder whatever the cache held; which endpoint answers and what the cache holds afterwards |
| LoadBalancer.Balancer.DeleteStatusSubscription | sdk/load_balance.go:211-219 | a delete reaches the holder whatever the cache held and drops the owner when it succeeds |
| LoadBalancer.Balancer.SubscribeStatusRefresh | sdk/load_balance.go:227-249 | a refresh subscription asks the cached owner only, or goes round without one; if all others answer not-found it reaches the holder if and only if the cache holds nobody or the holder |
| Paging.ListAfter | internal/proofstore/local.go:1142-1188 | a page is the items beyond the cursor up to the limit |
| Paging.NextStart | internal/proofstore/local.go:1163-1165 | in a sorted listing the next page begins no earlier than where the last one ended |
| Paging.AllSeenExactly | cmd/trustdb/metastore_cmd.go:139-191 | the loop over pages sees the whole listing if and only if the first item lies beyond the initial cursor and the cursor moves at every page boundary |
| Paging.EachSeen | internal/proofstore/local.go:1142-1188 | in a listing without repeats, if the loop over pages sees each item it sees the listing |
| ProofMigration.StepSettles | cmd/trustdb/metastore_cmd.go:139-397 | repeating a destination operation at once changes nothing |
| ProofMigration.StepKeepsSettled | cmd/trustdb/metastore_cmd.go:139-397 | nor does repeating it after any later operation of the plan |
| ProofMigration.Restart | cmd/trustdb/metastore_cmd.go:139-397 | an orderly plan stopped anywhere and started again ends where the uninterrupted plan ends |
| ProofMigration.PlanOrderly | cmd/trustdb/metastore_cmd.go:139-397 | the migration's plan is such a plan: one operation per key, schedules after all results |
| ProofMigration.RestartsAgree | cmd/trustdb/metastore_cmd.go:139-397 | any number of interrupted migrations, then a complete one, leave what one complete migration leaves, with and without overwrite |
| ProofMigration.CoveredThroughout | cmd/trustdb/metastore_cmd.go:139-191 | at every point of a migration every manifest in the destination has all its source-available bundles, if it was so at the start, as in an empty destination |
| ProofMigration.CoveredAlways | cmd/trustdb/metastore_cmd.go:139-191 | the same across interrupted migrations |
| ProofMigration.Migrated | cmd/trustdb/metastore_cmd.go:139-397 | for every key of a complete migration, by kind and flag: without the flag what the destination had stays, except roots and tiles; with it only anchor results stay; everything else it reaches is the source's; a schedule the destination had stays without the flag; every other key is as it was |
| ProofMigration.RefusedExactly | cmd/trustdb/metastore_cmd.go:139-397 | a migration is refused if and only if, with the flag, a reached anchor result differs from the destination's, or a schedule is invalid or is to be written and does not go with the results the destination then holds |
| ProofMigration.KeptResultSame | cmd/trustdb/metastore_cmd.go:334-372 | with the flag, an anchor result the destination keeps in a complete migration is the same as the source's |
| ProofMigration.ReceivedExactly | cmd/trustdb/metastore_cmd.go:139-397 | a store that was empty holds a key if and only if it was reached or is a schedule |
| ProofMigration.OrphanLeft | cmd/trustdb/metastore_cmd.go:157-180 | a bundle no manifest of the source names is not copied |
| ProofMigration.OrphanExists | cmd/trustdb/metastore_cmd.go:157-180 | a valid source of one such bundle, which a migration copies to nothing |
| ProofMigration.SchedulesReconciled | cmd/trustdb/metastore_cmd.go:334-397 | a restored schedule is the source's without lease, reconciled with the results the destination finally holds |
| ProofMigration.RangeExactly | internal/proofstore/local.go:1541-1565 | a leaf or tree head is copied if and only if no index below it is missing |
| ProofMigration.WholeListing | cmd/trustdb/metastore_cmd.go:193-209 | a paged phase copies its whole listing exactly under the boundary condition; distinct cursors beyond the first are enough |
| ProofMigration.TiesLost | cmd/trustdb/metastore_cmd.go:193-209 | of more than a page of documents with one cursor exactly the first page is copied |
| ProofMigration.RootLost | internal/proofstore/local.go:571-617 | for every positive close time, a valid source of 1025 roots with different batch IDs of which no migration copies the last |
| ProofMigration.EverythingMigrated | cmd/trustdb/metastore_cmd.go:139-397 | if the cursors move, nothing counted is missing and every bundle is named, a migration into an empty store leaves every document of the source |
| ProofMigration.EverythingExactly | cmd/trustdb/metastore_cmd.go:139-397 | for listings without repeats, a migration into an empty store leaves every document of the source if and only if these conditions hold |
| ProofMigration.ListRange | internal/proofstore/local.go:1785-1809 | a page of consecutive documents, ending at the first gap |
| ProofMigration.Migrator.CopyOne | cmd/trustdb/metastore_cmd.go:211-236 | one document, by kind and flag: kept, written, or refused if and only if it is a conflicting anchor result under the flag; nothing else changes |
| ProofMigration.Migrator.CopyBundles | cmd/trustdb/metastore_cmd.go:157-180 | the bundles of a manifest in order, missing ones skipped |
| ProofMigration.Migrator.CopyManifest | cmd/trustdb/metastore_cmd.go:148-189 | the manifest after its bundles, kept if it was there before and the flag is not set, otherwise the source's |
| ProofMigration.Migrator.CopyPaged | cmd/trustdb/metastore_cmd.go:139-209 | a paged loop with its cursor carries out the phase, or a first part of it |
| ProofMigration.Migrator.CopyRange | cmd/trustdb/metastore_cmd.go:211-236 | a counting loop carries out the phase, or a first part of it |
| ProofMigration.Migrator.RestoreSchedule | cmd/trustdb/metastore_cmd.go:374-397 | one schedule: lease cleared, skipped or restored, or an error |
| ProofMigration.Migrator.RestoreSchedules | cmd/trustdb/metastore_cmd.go:374-397 | the schedules in order |
| ProofMigration.Migrator.Migrate | cmd/trustdb/metastore_cmd.go:139-397 | the whole run carries out the plan, or a first part of it if stopped or refused; the report names what was written, and written and skipped add up to what was done |
| ProofMigration.Again | cmd/trustdb/metastore_cmd.go:139-397 | a run stopped after any number of writes and started again leaves, once complete, what one run leaves, and never a manifest without its bundles |

## Left out

- Merkle trees, the global log, the WAL, anchor scheduling, key registry and proof verification are not part of this model.
- Cryptography, X.509 and the CBOR and JSON byte codecs are parameters or abstract values.
- Dialling, TLS handshakes, timeouts and tickers appear only as steps that may or may not happen.
- Fairness of the scheduler: progress is "never stuck" plus a measure, not real-time liveness.
- The text of log claims, option merging and the non-native submission fallbacks would only add easy members.
- LogBatch.SubmitNative: the record, suite, receipt and signature checks of a response are one arbitrary function of the submitted claim and the response.
- RecordDB.LocalRecordDB.UpsertMany: assumes distinct IDs inside one chunk, as its callers provide; repeated IDs are not promised.
- RecordDB.LocalRecordDB.ListPage: remote listings and `sha256:` or `sm3:` prefixed local text queries are only covered by the content hash listing.
- SigningGate.OneCloserEach: an identity is installed at most once, as in every caller.
- TlsManager.StepKeepsInv: a snapshot is an opaque number; loading and parsing it is one step that may fail.
- NatsResult.WaitersAgree: the broker stores and routes a publish in one step and keeps the first message of a subject.
- CheckpointAdvance.SingleChain: two paths that alias one file through a symbolic or hard link, and removal of the lock of a run that is still alive, are not modelled.
- LoadBalancer.Balancer.StartIndex: the counter and the owner map are atomic; one operation at a time is modelled, but a read's routing depends on the cache only through its first lookup.
- LoadBalancer.Balancer.WithOwner: joined error texts are reduced to the last error.
- ProofMigration.Migrator.Migrate: read errors of the source, 64-bit wrap of leaf indexes and the idempotency projection that is rebuilt at the end are not modelled; a put of one document is one step.
- ProofMigration.SchedulesReconciled: lease removal and reconciliation are functions of the schedule and of the stored results.
