# webconfig: a verified model of the device document store

webconfig keeps, for every device (a mac address), a root document and a map of subdocuments, each with
payload, version, state, update time, error fields and expiry. Operators POST and DELETE subdocuments,
devices fetch what is stale for them, device reports and root 304 reports move states, an mqtt poke pushes
pending rows, and an upstream service may replace rows. Every handler reads a snapshot, filters it, and
writes rows back column by column, where an absent column keeps its old value.

The project states each handler twice. `Service`, `Handlers`, `Documents`, `Store`, `RootDocuments` and
`Metrics` are imperative: classes and methods with the source's loops and branches. `Steps` says what each
handler does to one device as a function from the old device to the new one, and every method is proved to
compute exactly that. The run theorems are then about those functions.

| modules | what is proved |
|---|---|
| `Machine` | the root version stays a hash of the rows over all runs, and exactly when DELETE breaks it |
| `Tags` | exactly when an old root version is taken for the current one, so that a stale device is told 304 |
| `LateReports` | reports that are late, duplicated or reordered never deploy a version the device has not named |
| `ErrorFree` | deployed rows carry no error in any run; a root 304 report settles the document |
| `Deliveries` | which parts a GET from the store returns, and which rows it touches |
| `Convergence` | exactly when a device that adopts what it was sent is sent anything again, upstream on or off |
| `Upstream`, `MismatchedHeaders` | upstream write-back, its crash, and recovery from unequal header lists |
| `Metrics`, `Store`, `CounterDrift`, `StateCounters`, `Postings` | exactly when a handler makes the state counters drift from the rows |
| `StoreRuns`, `Server` | runs over the whole store: the counters are the totals exactly when every call is truthful |
| `Backends`, `QuerySemaphore` | the two root document stores answer alike; when the query semaphore deadlocks |
| `Bits`, `Bitmaps`, `BitmapTables` | group headers, the 41-bit map and the supported-id map |
| `Codec` | CBC chaining (section 6.2 of NIST SP 800-38A), padding (Appendix A of the same) and unpadding |
| `Texts`, `HttpText`, `Profiles` | HTTP messages (section 2.1 of RFC 9112) and the JSON profile splice |

## Conventions

- A handler is one atomic step and its store calls succeed. Rows are seen through the Cassandra read: missing
  state, version and error columns read as zero values, rows without payload are invisible.
- Time is a parameter in whole milliseconds. murmur3, SHA-1, the AES block function, the status phrase and
  the formatted date are parameters; the block function is only assumed to have an inverse.
- Go map iteration is an arbitrary choice in every loop. Writing a set of rows is the pointwise `WriteAll`,
  so the order leaves no trace; where an order does matter (`Rebuilt`) the specification is a relation.
- Values that the source shares by pointer but never changes after sharing (root documents, subdocuments
  copied out of a document) are datatypes. Objects updated in place are classes.
- Request headers arrive split: the list of subdocument ids, the list of versions, the bitmap integers. A
  reply of upstream or of the broker is an arbitrary value, and so is the random tag of a precooked answer.
  `Response(0, …)` stands for a panic.
- Loops over text and bytes use unbounded indexes; integers are unbounded because the 64-bit values the
  source adds and shifts here (41 bits, milliseconds, counters) stay below its width.

## Where the code differs from what one would expect

- State correction edits copies, so the document filtered afterwards is the one read before the correction
  (db/service.go:205-231). A row it has just deployed can go back in deployment in the same request, and the
  counter of deployed rows then runs ahead: `Deliveries.GetTouchesExactlyTheDelivered`,
  `StateCounters.UndoneExactly`, `StateCounters.UndoneRowsMoveDeployed`.
- With correction on, a device without visible rows is answered 304 instead of 404, unless it asks for a reset,
  and is never sent upstream for them, because the not-found error of the correction's read is dropped
  (db/service.go:196-203): `Deliveries.NoVisibleRowStatus`, `Deliveries.UnknownDeviceStatus`,
  `Upstream.NoVisibleRowAsksExactly`.
- With unequal header lists, no visible row, upstream on and no bitmap in the header, the nil root document
  is dereferenced when upstream answers, unless the request is a reset or of mget (http/multipart.go:319-323):
  `Upstream.GetCrashesExactly`.
- An upstream answer that is not to be written back is sent to the device all the same. The device adopts a tag
  the store does not hold, and its next request is answered 200 from the store, which wants the stored rows again
  (http/multipart.go:325-361): `Convergence.ConvergesExactly`, `Convergence.SkippedUpdateIsSentAgain`. An answer
  without a tag leaves an older root version in place (db/service.go:553-560): `Upstream.GotStoresTagExactly`.
- A request with unequal header lists of a device without visible rows returns before it stores its metadata,
  which stay reported as changed (db/service.go:118-130): `Convergence.MetadataConverge`,
  `Convergence.UnreadMetadataStayChanged`.
- DELETE re-reads without expired rows and so loses them from the root version, POST re-reads with them
  (http/document_handler.go:185, 243): `Machine.DeleteKeepsIndexExactly`.
- The root version hashes the versions without keys and separators, so that two rows can both change and keep
  it under every hash (db/service.go:374-383): `Tags.BothChangeOneTag`, `Tags.StaleDeviceTold304`.
- A root 304 report deploys every visible row (db/service.go:421-435): `LateReports.RootReportDeploysExactly`.
  A success report without a version deploys whatever is stored: `LateReports.ReportDeploysUnnamedVersion`. A
  POST whose state header is "null" keeps a deployed mark over the new version
  (http/document_handler.go:127-130): `LateReports.PostDeploysExactly`.
- POST takes the old state from a header, so the counters drift exactly when it is not the stored state of
  some device (http/document_handler.go:153-158): `Store.TrueOldStateNeeded`, `Postings.BalanceKeptExactly`.
  DELETE and factory reset tell the counters nothing: `Handlers.DeleteSubDocument`,
  `StateCounters.ResetIsTruthfulExactly`. Upstream write-back takes a row it did not show for a new one, although
  it may be stored expired or unsupported and in a state: `StateCounters.ExpiredRowIsReplaced`.
- The deployed and failure gauges are never decremented (common/metrics.go:377-379, 445-447), so gauges follow
  the counters only as `Metrics.DecrementedGauges` says; conservation is about increments and decrements.
- State correction clears only positive error codes (db/service.go:223-226):
  `ErrorFree.CorrectionLeavesError`.
- Two subdocuments of one listed version make the recovered header depend on the iteration order:
  `MismatchedHeaders.RecoveryIsDeterminedExactly`.
- Decryption drops trailing 0x00 and 0x80 bytes of the plaintext, because padding is skipped on aligned data
  while unpadding is not: `Codec.RoundTripExactly`.
- SQLite stores a negative bitmap when it inserts a root document and Cassandra does not:
  `Backends.OneOperation`.
- The comma between spliced profiles depends on the length of the base text before it is trimmed:
  `Profiles.AppendIsConcatExactly`, `Profiles.SpacesMakeStrayComma`.

## Model

| member | source | states |
|---|---|---|
| Machine.RootVersionIsIndex | http/document_handler.go:165-203 | over every run without upstream in which each DELETE finds no other row expired, or only rows without a version beside visible ones, a device with content has a root document whose version is the hash of all its rows' versions |
| Machine.NextKeepsIndex | db/service.go:179-193 | each of the seven handlers keeps the index, including GET with metadata write and correction, reset, poke and precook |
| Machine.DeleteKeepsIndexExactly | http/document_handler.go:231-264 | when the hash does not map the two texts to one value, DELETE of a subdocument leaves a correct index if and only if no remaining row with a payload has expired, or some row is visible and the expired ones have no version |
| Machine.PostIndexes | http/document_handler.go:183-202 | POST makes the root version the hash of every row, expired rows included, whatever it was before |
| Machine.DeleteIndexes | http/document_handler.go:298-319 | under that condition the re-read and re-hash of both DELETE handlers restore the index from any root version, for every hash |
| Machine.ReadTextExactly | db/service.go:374-383 | a read without the expired rows hashes the text of all rows if and only if no expired row has a version |
| RootHash.PartHasSameTextExactly | db/service.go:374-383 | a part of a version map has the hashed text of the whole if and only if every version left out is empty |
| Machine.BuiltRootKeepsVersion | common/root_document.go:75-101 | storing header metadata with an empty version never overwrites the stored root version |
| Machine.BuiltDeviceKeepsVersions | db/service.go:141-245 | a GET leaves the keys and versions of all rows and the root version as they were |
| Machine.GetKeepsIndex | http/multipart.go:142-193 | a GET without upstream keeps the index |
| Machine.ResetKeepsIndex | http/multipart.go:400-405 | a factory reset without upstream keeps the index although it keeps the root version |
| Machine.ReportKeepsIndex | db/service.go:386-509 | no device report changes what the root version stands for |
| Machine.PokeKeepsIndex | db/cloud_input_mqtt.go:56-73 | nor does an mqtt poke |
| Machine.PrecookKeepsIndex | http/supplementary_handler.go:57-149 | nor does the supplementary precook branch |
| Machine.WritesKeepVersions | db/cassandra/document.go:124-183 | an upsert without payload and version columns leaves every row's content and version alone |
| Tags.OldTagMatchesExactly | common/root_document.go:103-133 | on an indexed device whose metadata the header does not change, the tag of another version map compares equal if and only if the two maps have one concatenated text |
| Tags.Told304Exactly | http/multipart.go:142-158 | a GET (no reset, not mget, matched lists, unchanged metadata, no lock) that lists an earlier version map and its tag gets 304 if and only if the texts agree or every visible row is listed or blocked, or with upstream on no row is wanted |
| Tags.BothChangeOneTag | db/service.go:374-383 | moving one character from one version to the next changes both and keeps the root version under every hash |
| Tags.StaleDeviceTold304 | db/service.go:259-264 | so, under the same conditions, a device whose two rows are both stale is answered 304, upstream on or off |
| LateReports.DeployedVersionsWereNamed | db/service.go:439-508 | in every run with a channel that delays, duplicates and reorders reports, without root 304 reports, with versioned success reports, and with no POST whose state header is 1 or "null", every deployed row holds a version the device named in a success report or in If-None-Match |
| LateReports.ReportDeploysUnnamedVersion | db/service.go:474-504 | a delivered report deploys a row whose version it does not carry if and only if it is a success report without a version for a readable row in one of the four states |
| LateReports.RootReportDeploysExactly | db/service.go:414-436 | after a root 304 report a row is deployed if and only if it was visible or deployed before, with the version it had |
| LateReports.PostDeploysExactly | http/document_handler.go:120-151 | after a POST the row has the posted version and is deployed if and only if the header asks for that state, or asks for none and the row was deployed |
| LateReports.AttributedVersionsAreNamed | db/service.go:331-359 | every version the service attributes to the device in a request was named in that request |
| LateReports.BuiltRowsVouched | db/service.go:195-246 | state correction deploys only versions the request names |
| LateReports.UpstreamVouched | db/service.go:511-551 | upstream write-back deploys nothing |
| ErrorFree.DeployedRowsCarryNoError | db/service.go:443-455 | in every run with non-negative reported codes, upstream on or off, a deployed row has error code 0 and no details |
| ErrorFree.NextClean | http/supplementary_handler.go:89-117 | each handler keeps that, including precook, which clears the error columns |
| ErrorFree.CorrectionLeavesError | db/service.go:219-231 | a corrected row keeps an error if and only if its stored code is negative |
| ErrorFree.WrittenRowsAreSettled | common/subdocument.go:263-281 | after the report's writes no row visible at a later time needs the update |
| ErrorFree.Http304Settles | db/service.go:408-436 | a second root 304 report at any later time writes nothing and lists nothing |
| Deliveries.GetDeliversExactlyTheWanted | http/multipart.go:142-257 | of every answer from the store (no reset; upstream off, or on and not asked), with state correction on or off, the parts of a 200 are exactly the visible, stale (or all, on metadata change), unblocked, resolvable and supported rows, each with stored version and resolved payload |
| Deliveries.GetAnswers200Exactly | http/multipart.go:137-257 | an answer from the store is 200 if and only if the root document is not locked against it and some row is wanted (mget with upstream on has its own row) |
| Deliveries.MgetAnswers200Exactly | http/multipart.go:218-238 | with upstream on an mget agent gets 200 if and only if the root document is not locked against it and some visible row is stale and not blocked, although the filters may leave no part |
| Deliveries.GetTouchesExactlyTheDelivered | db/service.go:589-615 | by an answer from the store exactly the delivered rows that were stored neither deployed nor in deployment change, to in-deployment with cleared errors, and none for mget; all others stay as the correction, if on, left them |
| Deliveries.GetTouchesExactlyTheWanted | http/multipart.go:170-257 | row by row, for an answer from the store: it changes over its corrected form if and only if it was wanted, the request is neither locked out nor mget, and it was stored neither deployed nor in deployment |
| Deliveries.NoVisibleRowStatus | db/service.go:195-203 | without upstream, for a device without visible rows, exactly when the status is 409, 404 and 304, resets and every configuration included |
| Deliveries.UnknownDeviceStatus | db/service.go:195-203 | without upstream a device the service has never seen, that lists no subdocument, gets 304 when correction is on and it asks for no reset, and 404 otherwise |
| Deliveries.WantedAreDelivered | common/document.go:223-242 | the filter pipeline lets a row through if and only if it is wanted |
| Convergence.MetadataConverge | common/root_document.go:103-133 | after one GET or reset, upstream on or off, comparing the same header reports changed metadata if and only if the header leaves a stored non-partner field uncovered; or, when the lists mismatched and no row was visible, if and only if it differs from the stored metadata, which for a new device are empty once an upstream tag is stored |
| Convergence.UnreadMetadataStayChanged | db/service.go:118-130 | in that case other metadata than the stored ones stay reported as changed, covered or not |
| Convergence.GetConverges | db/service.go:259-280 | upstream on or off, not mget: a device that adopts a 200's non-empty tag and its part versions gets 304 on every later request that is no reset, with any reference tables and upstream answers, and no row changes but by a correction, when its metadata settle (see MetadataConverge) and the tag is stored: it came from the store, was written back, or was the stored root version |
| Convergence.ConvergesExactly | http/multipart.go:195-257 | after any 200 (no reset, not mget, not locked), with a tag or without: when the adopting device's next request asks upstream, and that otherwise it is not answered 200 if and only if the metadata settled and a non-empty tag is stored, or no stored row is wanted |
| Convergence.SkippedUpdateIsSentAgain | http/multipart.go:325-336 | it does go wrong: upstream changes a row under a new tag and asks that the store be left alone, and the adopting device's next request is answered 200 again |
| Convergence.AdoptingVisitExists | db/service.go:331-359 | such a next request exists: the same header listing the tag and the part sent |
| Convergence.MgetConverges | http/multipart.go:213-238 | an mget agent that adopts a tag is never answered 200 again, whatever its metadata: it gets 304, or 404 once no row is visible and correction is off |
| Convergence.GetWithoutRootVersionConverges | common/document.go:131-151 | not mget, header covering: when a 200 from the store carried no tag, the adopting device is sent no 200 on any later request that is no reset while it is answered from the store and no further reference is stored, and no row changes but by a correction |
| Convergence.StaysSettled | db/service.go:141-193 | over any number of such requests answered from the store the stored metadata and the content of every row stay as they were once settled |
| Convergence.FirstGetSettles | http/multipart.go:142-257 | a request answered 200 from the store settles them |
| Convergence.AdoptedTagIsNoReset | http/multipart.go:122-130 | a device that adopts a root version asks for a reset only if that version reads NONE or NONE-REBOOT |
| Convergence.FilterBitmapSettles | common/root_document.go:191-214 | the bitmap a GET stores is the one its own delivery was filtered by |
| Documents.ForGetIsFixpoint | common/document.go:131-151 | filtering again over the adopted versions gives the empty document, with or without the root version |
| Documents.PartVersionsAreVersionMap | common/document.go:51-79 | the version map of a document built from a part list, duplicates included, is the map the list form of the hash uses |
| Upstream.WriteBackSetsRootVersion | db/service.go:553-560 | the root version becomes the upstream tag if and only if the document handed over had another tag or the store already holds it |
| Upstream.GotStoresTagExactly | http/multipart.go:325-336 | over the whole handler, resets included: the root version becomes the tag of an answer that is written back unless the tag is empty, no row was visible, a root version was stored, and the lists mismatch or correction is off; then the stored one stays |
| Upstream.UntaggedAnswerKeepsVersion | db/service.go:553-560 | it does happen, on changed metadata with correction off |
| Upstream.WriteBackKeys | db/service.go:562-585 | with deletion the stored keys become the new keys plus those the old document did not show, without it no key is lost |
| Upstream.WriteBackRows | db/service.go:528-546 | a new row is left untouched when device, old and new version agree and else ends in deployment with zeroed errors and the new version; other surviving rows do not change |
| Upstream.GetCrashesExactly | http/multipart.go:311-323 | a GET or reset crashes if and only if upstream is on, it is no reset, the lists mismatch, no row is visible, the header has no bitmap, the agent is not mget and upstream answers |
| Upstream.NoVisibleRowAsksExactly | http/multipart.go:195-211 | with upstream on, its answer can matter to a device without visible rows if and only if the request is neither a reset nor mget, and its lists mismatch, or it is not locked out and its metadata changed or, with correction off, its root version is not the stored one |
| Upstream.UpstreamIsAskedExactly | http/multipart.go:195-257 | for every request, resets included: upstream's answer can change the response or the device if and only if upstream is on and the request asks it, by conditions on request and store alone |
| Upstream.AnswerWithoutAsking | http/multipart.go:236-257 | a request that does not ask upstream gets one answer and leaves one device, whatever upstream would have said |
| MismatchedHeaders.RebuiltEntries | db/service.go:617-631 | for every iteration order each recovered entry equals the stored version and was listed, and every listed stored version is attributed to some row |
| MismatchedHeaders.MismatchDelivers | common/document.go:131-151 | no row whose version the device did not list is withheld; when no listed version belongs to two rows exactly the unlisted ones are delivered |
| MismatchedHeaders.MismatchedGetDelivers | http/multipart.go:142-257 | so in the answer: of the rows a device listing nothing would be sent, each unlisted one is sent, and exactly those when no listed version belongs to two visible rows, or all when the metadata changed |
| MismatchedHeaders.RecoveryIsDeterminedExactly | db/service.go:617-631 | the recovered map is the same for every iteration order if and only if no listed version belongs to two stored ids, "root" included |
| MismatchedHeaders.ListedOnceDetermines | db/service.go:622-629 | it then is the listed part of the stored version map, with the first listed version as root version |
| MismatchedHeaders.SharedVersionIsAmbiguous | db/service.go:618-621 | with a shared listed version two iteration orders recover different maps |
| StateCounters.CountersTelescope | common/metrics.go:461-502 | over any sequence of writes that pass the true old state, increments minus decrements of each state over all labels change exactly as the number of rows in it |
| StateCounters.TotalSet | db/cassandra/document.go:183-198 | replacing one device moves the total of rows in a state by that device's change |
| StateCounters.OneDeviceKeepsBalance | db/cassandra/document.go:183-198 | a handler that changes one device keeps counters and rows together over the store if and only if it keeps them together on that device |
| StateCounters.LocalGetIsTruthfulExactly | http/multipart.go:132-188 | with upstream off the counters follow a GET if and only if correction is off, the agent is mget, the root document is locked, the metadata did not change, or no wanted row is pending or failed under the non-empty version the device lists for it |
| StateCounters.UndoneRowsMoveDeployed | db/service.go:603-613 | every such row lets the counter of deployed rows run one ahead |
| StateCounters.UndoneExactly | db/service.go:205-292 | those rows are exactly the ones that were not deployed, that the correction deploys, and that the same request leaves in deployment |
| StateCounters.OnePendingRowIsUndone | db/service.go:205-233 | it does happen, to one pending row that the device names when its header brings other metadata |
| StateCounters.UpstreamGetIsTruthfulExactly | http/multipart.go:330-336 | with upstream on the counters follow a GET if and only if it does not write back, or every row the answer brings was shown upstream and needed no correction, or was not shown and is in no state |
| StateCounters.ExpiredRowIsReplaced | db/service.go:511-551 | it does go wrong: on changed metadata upstream brings a row that is stored expired and in a state |
| StateCounters.StoreAnswerIsTruthful | http/multipart.go:243-247 | with upstream on a request that does not ask it always passes true states |
| StateCounters.ResetIsTruthfulExactly | http/multipart.go:381-465 | the counters follow a factory reset if and only if it deletes no row in a state and replaces none it did not read |
| CounterDrift.TruthKeepsDriftExactly | common/metrics.go:478-502 | over a batch whose wrong states are unknown or overtaken by a deployment, counters and rows keep together if and only if every state passed is true and no deleted row is in a state |
| CounterDrift.OneMoreWrite | db/service.go:603-613 | each write moves the drift by the state the row had minus the state passed, in any order |
| CounterDrift.RemovalDriftsExactly | db/cassandra/document.go:202-211 | deletions keep counters and rows together if and only if no deleted row is in a state |
| Store.TrueOldStateNeeded | http/document_handler.go:153-158 | one write of any state keeps counters and rows together if and only if the old state passed is the stored one, up to values that are no state |
| Store.WriteMovesCount | db/cassandra/document.go:192-198 | writing a row moves each state's number of rows as the counter of that state should move |
| Store.CountersFollowRow | common/metrics.go:478-502 | a write with the true old state keeps the difference of counters and rows |
| Store.DriftKeptExactly | db/cassandra/document.go:192-199 | the same for the upsert of a partial record on one device of the store |
| Store.WriteShiftsDrift | db/cassandra/document.go:192-198 | one write shifts the drift from the state passed to the state stored, whatever was passed |
| Store.WriteAllStep | db/service.go:603-613 | adding one more written key commutes with all others, so iteration order leaves no trace |
| Store.DatabaseClient.SetSubDocument | db/cassandra/document.go:89-200 | upserts exactly the given columns of one row, refuses negative times without effect, and records the state change |
| Store.DatabaseClient.GetSubDocument | db/cassandra/document.go:33-87 | shows a row with zero defaults, resolving a reference when it is found, expired or not |
| Store.DatabaseClient.GetDocument | db/cassandra/document.go:242-354 | shows exactly the rows with payload that are unexpired or asked for |
| Store.DatabaseClient.DeleteSubDocumentColumns | db/cassandra/document.go:213-228 | clears the named columns of one stored row and nothing else |
| Store.DatabaseClient.SetRootDocument | db/cassandra/root_document.go:51-68 | merges the non-empty fields into the stored root document |
| Metrics.RecordedNet | common/metrics.go:478-502 | one state change moves the net count of each state over all labels by its net change |
| Metrics.AppMetrics.UpdateStateMetrics | common/metrics.go:461-502 | records that change and keeps gauges in step with the counters as far as the source does |
| Metrics.DecrementedGauges | common/metrics.go:377-447 | pending and in-deployment gauges follow the counters, deployed and failure gauges only their increments |
| RootDocuments.UpdateSettlesMetadata | common/root_document.go:103-189 | comparing against a header whose fields were just merged reports changed metadata if and only if some stored non-partner field was left uncovered |
| RootDocuments.RootDocument.Update | common/root_document.go:161-189 | overwrites exactly the fields that are non-empty in the argument |
| RootDocuments.RootDocument.UpdateMetadata | common/root_document.go:191-214 | the same for the metadata fields only |
| RootHash.HashRootVersion | db/service.go:361-384 | hashes the versions in the order of the sorted keys, for any iteration order |
| RootHash.HashRootVersionOfParts | db/service.go:364-368 | the list form hashes the last version of every part name |
| RootHash.ListingIsUnique | db/service.go:375-379 | a set of keys has one sorted listing, so the hash is a function of the version map |
| RootHash.SortedKeys | db/service.go:375-379 | collecting the keys in any order and sorting gives that listing |
| Documents.Document.SetSubDocuments | common/document.go:51-57 | parts are stored in order, a later part of a name replacing an earlier one |
| Documents.Document.FilterForGet | common/document.go:131-151 | returns a new document of the stale rows, empty when the root versions match |
| Documents.Document.FilterForMqttSend | common/document.go:118-129 | returns a new document of the rows not deployed |
| Documents.Document.FilterByBitmap | common/document.go:223-242 | keeps exactly the supported or exempt rows, all of them without root document |
| Documents.Document.CollectVersions | common/document.go:71-79 | the version map, for any iteration order |
| Documents.Document.CollectStates | common/document.go:81-89 | the state map, for any iteration order |
| Service.BuildGetDocument | db/service.go:48-297 | returns exactly the specified document, root documents, version map and messages and leaves the specified device; counters keep following the rows |
| Service.ParseVersionMap | db/service.go:331-359 | pairs the two lists, and fails if and only if their lengths differ |
| Service.RebuildDeviceVersionMap | db/service.go:617-631 | returns one of the maps that some iteration order allows |
| Service.FindDeviceVersions | db/service.go:118-135 | attributes a version map to the device, not-found if and only if the lists mismatch and nothing is visible |
| Service.ReadAndStoreRoot | db/service.go:140-193 | reads, creates, compares and updates the root document |
| Service.CorrectStates | db/service.go:195-246 | writes exactly the corrections and announces each corrected version, while the document read stays stale |
| Service.CorrectRow | db/service.go:206-233 | corrects one row with its true old state |
| Service.StoreRootAndCorrect | db/service.go:140-246 | the root document, then the corrections when they are on |
| Service.SelectDocument | db/service.go:248-297 | lock check and choice among empty, filtered and whole document |
| Service.UpdateDocumentState | db/service.go:386-509 | a report changes the device exactly as specified, error branches included, and the counters follow the rows |
| Service.UpdateAllForHttp304 | db/service.go:421-436 | deploys exactly the rows that need it and lists them |
| Service.UpdateSubDocument | db/service.go:511-551 | writes an upstream row in deployment unless all three versions agree |
| Service.UpdateSubDocuments | db/service.go:562-575 | writes every upstream row and leaves the keys to delete |
| Service.WriteDocumentFromUpstream | db/service.go:553-586 | root version, rows and deletions of the write-back, and how far the counters move from the rows |
| Service.UpdateDocumentStateIndeployment | db/service.go:589-615 | puts exactly the delivered rows not yet delivering in deployment, and moves the counters by the states its document shows |
| Service.UpdateStatesInBatch | db/cloud_input_mqtt.go:56-73 | puts the given rows in deployment, leaving their errors |
| Service.PreprocessRootDocument | db/service.go:642-681 | merges the header into the stored root document and returns the merge |
| Service.LoadRefSubDocuments | db/service.go:694-711 | replaces references by what they name and drops rows whose reference dangles |
| Handlers.PostSubDocument | http/document_handler.go:93-212 | every listed device gets the record and a fresh root version, all others stay, and the answer holds the stored root versions; 400 and 500 change nothing; the counters as for the loop |
| Handlers.PostToDevices | http/document_handler.go:165-203 | the loop over devices, repeated devices included; counters and rows of the store keep together if and only if the header's old state is that of each device when its turn comes, or no state is written |
| Handlers.PostToDevice | http/document_handler.go:168-202 | one device; the counters follow its rows if and only if the header gave the stored state, and shift from one to the other otherwise |
| Postings.PostedTwice | http/document_handler.go:110-119 | posting to a device listed twice is posting once |
| Postings.ErrorsAddUp | http/document_handler.go:165-178 | one old state is passed for all devices, so that the counter of that state never runs ahead of its rows and the others never fall behind, and a counter keeps if and only if every turn is right about its state |
| Postings.BalanceKeptExactly | http/document_handler.go:165-178 | the counters follow the rows of the store over the loop if and only if the header is right for every turn |
| Handlers.DeleteSubDocument | http/document_handler.go:231-264 | removes the row and re-indexes from the unexpired rows; the counters keep with the rows if and only if the row was in no state |
| Handlers.DeleteDocument | http/document_handler.go:288-321 | removes all rows and the root version; the counters keep with the rows if and only if no row was in a state |
| Handlers.BuildWebconfigResponse | http/multipart.go:113-362 | the whole GET and reset: device and response are those specified, other devices stay, and the counters follow the rows if and only if the request is truthful about their states |
| Handlers.BuildConfigResponse | http/multipart.go:132-362 | a GET that is no reset, and how far its state writes move the counters |
| Handlers.SendDocument | http/multipart.go:170-192 | the filtered document goes to the device and its rows are in deployment |
| Handlers.RespondWithoutUpstream | http/multipart.go:142-193 | status, parts and tag without upstream |
| Handlers.RespondWithUpstream | http/multipart.go:195-316 | the same with upstream switched on, including the 500 that carries the document when the upstream answer does not parse |
| Handlers.RespondLocally | http/multipart.go:213-257 | mget and local answers |
| Handlers.WriteBack | http/multipart.go:311-362 | stores the upstream answer and filters it for the device |
| Handlers.SendFromUpstream | http/multipart.go:338-361 | the response built from an upstream answer |
| Handlers.BuildFactoryResetResponse | http/multipart.go:364-487 | factory reset with and without upstream, every refusal included |
| Handlers.ResetRows | http/multipart.go:381-487 | the same from the stored root document on |
| Handlers.ReplaceFromUpstream | http/multipart.go:448-486 | the upstream answer to a reset replaces the document |
| Handlers.BuildMqttSendDocument | db/cloud_input_mqtt.go:30-53 | the document a poke sends |
| Handlers.PokeMqtt | http/poke_handler.go:86-125 | the poke of one device with the broker's own status; the counters follow the rows |
| Handlers.SupplementaryPrecook | http/supplementary_handler.go:57-149 | 304, stored telemetry row under a random tag, or going on, with the writes of each; the counters follow the rows |
| Handlers.MarkPrecooked | http/supplementary_handler.go:92-117 | the state write and the cleared columns together leave one exact row |
| Server.Serve | http/router.go:58-103 | whatever is asked, the handler performs one step of the runs below: every device takes its step or stays, and counters and rows keep together if and only if the call is truthful |
| StoreRuns.CountersAreTotalsExactly | common/metrics.go:461-502 | over any run of calls from the empty store, increments minus decrements of each state are the number of rows in it at every moment if and only if every call was truthful |
| StoreRuns.TruthfulCallsKeepTotals | common/metrics.go:461-502 | they are as long as the calls were truthful, whatever comes later |
| StoreRuns.StoreIsIndexed | http/document_handler.go:165-203 | over any run of calls without upstream the root version of every device is the hash of its rows while no DELETE that reaches it hides a versioned row |
| StoreRuns.StoreIsErrorFree | db/service.go:443-455 | over any run of calls a deployed row of any device carries no error while that device reports no negative code |
| Backends.BackendsAnswerAlike | db/sqlite/root_document.go:27-263 | after any operations whose documents have no negative bitmap both backends give the same not-found or the same eight fields |
| Backends.OneOperation | common/root_document.go:75-101 | one operation on rows that answer alike leaves them alike if and only if it does not create a row from a negative bitmap |
| Backends.UpsertIsStoredRoot | db/cassandra/root_document.go:51-68 | writing the non-empty columns is the merge of all ten fields that the device model uses |
| Backends.RewriteAnswers | db/sqlite/root_document.go:245-263 | read, merge and rewrite answers with the merge of the eight fields |
| Backends.NonEmptyColumnMap | common/root_document.go:75-101 | the loop collects exactly the non-empty texts and non-zero numbers |
| Backends.CassandraRoots.SetRootDocument | db/cassandra/root_document.go:51-68 | one upsert on one row of the table |
| Backends.CassandraRoots.DeleteRootDocumentVersion | db/cassandra/root_document.go:125-134 | clears the version and creates no row |
| Backends.SqliteRoots.SetRootDocument | db/sqlite/root_document.go:245-263 | insert when absent, else merge in memory and update |
| Backends.SqliteRoots.SetRootDocumentVersion | db/sqlite/root_document.go:113-124 | insert or update of the version |
| Backends.SqliteRoots.SetRootDocumentBitmap | db/sqlite/root_document.go:158-169 | insert or update of the bitmap |
| Backends.SqliteRoots.DeleteRootDocumentVersion | db/sqlite/root_document.go:187-211 | clears the version of an existing row |
| QuerySemaphore.DeadlockFreeExactly | db/cassandra/document.go:41-62 | for every capacity, no reachable state is stuck if and only if fewer nesting calls are issued than the semaphore has slots, or no call at all |
| QuerySemaphore.Progress | db/sqlite/document.go:33-83 | with fewer nesting calls in flight than slots, some unfinished call can take a step |
| QuerySemaphore.RunsEnd | db/cassandra/refsubdocument.go:28-46 | every step lowers the remaining work, so every run is finite |
| QuerySemaphore.RunKeepsInvariant | db/sqlite/root_document.go:187-191 | held slots are the slots the calls in flight hold and never exceed the capacity |
| Bitmaps.HeaderMeaning | common/firmware_bitmap.go:45-110 | a subdocument is supported by a header's bitmap if and only if some element has its group in the high bits and its group bit set |
| Bitmaps.HeaderOrderIrrelevant | common/firmware_bitmap.go:56-73 | permuting and repeating header elements does not change the bitmap |
| Bitmaps.GetCpeBitmap | common/firmware_bitmap.go:56-73 | the bits set are those some element announces; an unreadable element fails the whole header |
| Bitmaps.SetBitmapByGroup | common/firmware_bitmap.go:29-43 | adds exactly the bits the group announces |
| Bitmaps.GetSupportedMap | common/firmware_bitmap.go:112-124 | agrees with IsSubdocSupported on every id, known or not |
| Bitmaps.GetBitmapFromSupportedMap | common/firmware_bitmap.go:136-147 | addition sets exactly the bits of the supported ids, for any iteration order |
| Bitmaps.BitmapRoundTrip | common/firmware_bitmap.go:112-147 | map and back keeps the low 41 bits |
| Bitmaps.SupportedMapRoundTrip | common/firmware_bitmap.go:112-147 | back and forth is the identity on maps over the known ids |
| BitmapTables.SourceTablesValid | common/bitmap.go:30-154 | the group table and the index table are bijections onto bits 1 to 41 |
| BitmapTables.SubdocIdsDistinct | common/bitmap.go:110-154 | the 41 subdocument ids are distinct |
| Bits.AddBit | common/firmware_bitmap.go:139-145 | adding an unset bit sets that bit and carries into no other |
| Bits.BitsDetermine | common/firmware_bitmap.go:136-147 | numbers with the same bits are equal |
| Codec.DecryptAfterEncrypt | security/aes_codec.go:238-321 | for every key, IV and plaintext decryption gives the plaintext without trailing 0x00 and 0x80 bytes, and an error when nothing is left |
| Codec.RoundTripExactly | security/aes_codec.go:238-321 | the plaintext itself comes back if and only if it is non-empty and ends in another byte |
| Codec.CbcInverse | security/aes_codec.go:317-318 | CBC decryption undoes CBC encryption for any block function with an inverse |
| Codec.AesCodec.EncryptBytes | security/aes_codec.go:291-321 | IV, then the chained blocks of digest, plaintext and padding |
| Codec.AesCodec.DecryptBytes | security/aes_codec.go:238-280 | every outcome, from short input to the scan that runs off the front |
| Codec.AesCodec.LastDataIndex | security/aes_codec.go:263-272 | the scan stops at the last byte that is no padding |
| Codec.PaddedShape | security/aes_codec.go:224-236 | padding aligns, keeps the data in front and adds only bytes the scan strips |
| HttpText.ParseAfterBuild | util/parser.go:28-56 | parsing a built message gives back its header, whatever order the names are printed in, and the body up to its first blank line |
| HttpText.BodyComesBackExactly | util/parser.go:28-56 | the whole message comes back if and only if the body has no blank line |
| HttpText.ParseAfterPayload | common/http_stream.go:52-73 | for every status code the parse gives the header with date and length appended, and the body |
| HttpText.StatusLineIsSkipped | common/http_stream.go:37-50 | no status line, with or without phrase, is read as a header field |
| HttpText.ParseHttp | util/parser.go:28-47 | header fields of the first part, body is the second part |
| HttpText.BuildHttp | util/parser.go:49-56 | header lines of the valid names, values on one line, blank line, body |
| HttpText.HeaderPrintsItself | util/parser.go:49-56 | a header as the parser leaves it loses nothing in printing |
| HttpText.BuildPayloadAsHttp | common/http_stream.go:52-73 | status line, header lines, date, length, blank line, body |
| HttpText.FirstBlankLine | util/parser.go:29-31 | the first blank line of a message is the one that ends its header |
| Texts.SplitJoin | util/parser.go:29-31 | splitting undoes joining for parts without the separator's first character |
| Profiles.AppendIsConcatExactly | util/string.go:135-152 | onto a compact base text, with or without spaces around it, the splice of a compact array text is the text of the concatenated lists if and only if nothing is appended, or the base text, spaces included, is longer than 20 bytes just in case its list is not empty |
| Profiles.SpacesMakeStrayComma | util/string.go:140-147 | an empty document followed by six spaces or line breaks gets a stray comma |
| Profiles.RepeatedAppend | util/string.go:135-152 | with profile texts of at least 6 bytes appending twice is appending the concatenation once |
| Profiles.ShortBase | util/string.go:137-139 | a base under 3 bytes counts as an empty document |
| Profiles.AppendProfiles | util/string.go:135-152 | the bytes written, and the slice panic of a base that trims to under 2 bytes |

## Left out

- HTTP clients, Kafka sessions, routing, rate limits, tracing, logging, tokens and TLS: plumbing around the handlers.
- SQL and CQL text and drivers: a table is a map, an insert an upsert of columns.
- multipart, msgpack, JSON and prometheus encodings: bodies are maps of parts, metrics integer maps; the order of
  parts in a body is not modelled.
- The SQLite subdocument table: it neither writes nor reads expiry the way the Cassandra view does.
- Races between a handler's read and its write: handlers are atomic.
- A negative stored update time: the Cassandra view never shows one, so the branches that test for it cannot be
  reached (db/service.go:481-489).
- Store.DatabaseClient.GetDocument: a row holds its decrypted payload, so the row of an encrypted group that fails
  to decrypt, which the scan skips, is not modelled.
- Store.DatabaseClient.GetSubDocument: nor is the error that such a row gives here.
- Metrics.AppMetrics.UpdateStateMetrics: a label set always has its four labels, "unknown" standing for a missing
  one as RectifyLabels leaves it; the second set of gauges for watched devices is not modelled.
- Service.UpdateDocumentState: a report with config versions is only the no-op the source makes of it.
- Service.UpdateSubDocument: requires a non-negative expiry, because upstream parts carry none.
- Handlers.PokeMqtt: one device of the loop over several; the non-mqtt poke changes no row and is not modelled.
- Handlers.SupplementaryPrecook: the profile source that is asked otherwise is not modelled, nor are failing store
  calls.
- StoreRuns.CountersAreTotalsExactly: the metrics are on from the start; storing a reference is not a call, a call
  is served under whatever reference table there is.
- Machine.RootVersionIsIndex: upstream is off, since with it the root version is upstream's tag (see
  Upstream.WriteBackSetsRootVersion); POST of a root document is not a step.
- Machine.DeleteKeepsIndexExactly: murmur3 is a parameter, so that it has no empty value and no collision on the
  two texts is assumed.
- Convergence.GetWithoutRootVersionConverges: excludes a subdocument named "root", whose version would be read as
  the root version.
- HttpText.ParseHttp: bytes are characters, and trimming knows the ASCII spaces only.
- Codec.AesCodec.EncryptBytes: the base64 string variants (security/aes_codec.go:106-222) run the same chain and
  are not modelled a second time; secrecy is not modelled.
- Pretty printers, BitarrayToBitmap, the default supported maps, SubDocument.Equals and the GET of one subdocument:
  easy members only.
