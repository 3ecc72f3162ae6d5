# Hyperindex: verified model

Hyperindex is an AT Protocol indexer. This project models the parts of it whose logic is hardest to get
right and proves what they promise, in Dafny. `dafny verify dfyconfig.toml` checks everything.

- **Record queries** (`Sql`, `Like`, `RecordFilter`, `RecordQuery`, `Keyset`, `RecordPage`,
  `CollectionMatcher`). Filters are compiled to a small condition language with placeholders, evaluated in
  three-valued logic on one row, and compared with a direct reading of the same filters. Placeholders are bound
  by number (PostgreSQL) or in text order (SQLite). Pages are slices of the matching rows in sort order.
  What an engine decides for itself (mixed-type comparison, casts, JSON values as columns, which characters
  LIKE identifies) is a parameter shared by both sides.
- **Graphs** (`GraphClosure`, `Endorsement`, `LexiconGraph`). The capped breadth-first closure with provenance,
  the batched edge source under it, and the worklist behind the lexicon fingerprint, against reachability.
- **Record storage** (`RecordStore`, `ValidationRefresh`). Upserts, same-CID repairs and the atomic backfill batch
  on a table keyed by URI; the startup refresh with the steps of all other writers between its statements.
- **Tap ingestion** (`Redelivery`, `TapIngest`). Handlers as sequences of atomic store steps. `Redelivery` holds the
  algebra that makes logs of such steps safe to redeliver.
- **Labelers** (`ActiveLabels`, `FatalMarker`, `Labeler`). Which labels are current, the fatal-cursor marker, and
  the resumable subscription.
- **Migrations** (`Statements`) and **DPoP replay protection** (`DpopReplay`, section 11.1 of RFC 9449).
- `Text` and `Sorting` hold strings as Go sees them and what sorting guarantees.

## Assumptions

- A SQL statement or transaction is one atomic step; a table is a map from its primary key, or a set of rows.
- Engines compare texts exactly and order them as ORDER BY does; the timestamps stored are normalized, so their
  text order is time order. Nothing is assumed about other comparisons.
- All writers share one validator; a non-empty CID determines a record's content; a URI determines its collection
  and record key. Validation, hashing, decoding and reading `createdAt` are functions that are not looked into.
- Redelivery follows per-repo order (README.md:78 of the repository): it goes back before it goes on.
- The clock does not go back. A labeler sends the events past the cursor in ascending order.

## Where a property fails, and when it holds

- The repository's `UpdateError` accepts any text. One such as `FATAL CURSOR x` is stopped by the SQL guard
  `NOT LIKE 'FATAL_CURSOR %'`, in which `_` is a wildcard, but not by the check in Go: it freezes the cursor without
  counting as fatal (`Labeler.ErrorFreezesCursor`). The cursor follows what is persisted while the row is not fatal
  exactly when no step writes a text of that kind (`Labeler.CursorFollowsWhileNotFatal`). Both callers prefix their
  texts, which are therefore never of that kind (`Labeler.LiteralsAreOpen`), so the subscriber is not affected.
- A proof is accepted at most once only if a request inserts its jti soon enough after verifying its age:
  exactly when both times together stay within 3600 seconds (`DpopReplay.AcceptedAtMostOnce`).
- An ack does not mean that the actor row exists: a failed `Ensure` is only logged (`TapIngest.Index.Dispatch`,
  `TapIngest.AckWithoutActor`).
- `CollectionMatcher` and its SQL form differ on SQLite for collections that match a prefix only apart from case
  (`CollectionMatcher.FoldingAgrees`, `CollectionMatcher.FoldingDisagrees`).
- The general pager follows ORDER BY exactly for ASC and DESC (`RecordPage.CursorFollowsOrder`).
- `FatalCursorCode` gives back the code exactly when it has no colon and fits (`FatalMarker.CodeRoundTrip`).
- The active set depends on arrival order exactly when a live label ties with another for the greatest creation time of
  its group (`ActiveLabels.ArrivalOrderIrrelevant`, `ActiveLabels.TieDependsOnOrder`).
- Distances in the closure are those of the graph without the empty DID, which the loop skips; the check of the
  remaining account cap at closure.go:85-87 can never fail.

## Model

| member | source | states |
|---|---|---|
| RecordFilter.ScalarMeaning | internal/database/repositories/records.go:1549-1617 | for every operator, value, field type and placeholder start: a condition is built exactly for the operator/value combinations that are supported (IN lists up to 100, boolean isNull); its placeholders are the parameters it returns; it is TRUE exactly when the value is related to the operand as the operator says, NULL never matching |
| RecordFilter.CreatedAtMeaning | internal/database/repositories/records.go:1514-1547 | the record_created_at filter is built exactly for text values and lists of texts, and reads the column without a numeric cast |
| RecordFilter.ContributorMeaning | internal/database/repositories/records.go:1735-1842 | the contributor filter keeps exactly the records of which some contributor is, in one of the five places or through the referenced contributor record, one of the non-empty DIDs asked for; PostgreSQL's twice-bound reused `$n` and SQLite's five copies give the places the same values |
| RecordFilter.FieldMeaning | internal/database/repositories/records.go:1484-1504 | every filter outside arrays (contributor, badge type through the referenced definition, whitelisted column, JSON path) compiles exactly when valid and keeps exactly the records it describes |
| RecordFilter.ArrayMeaning | internal/database/repositories/records.go:1619-1656 | one array condition keeps exactly the records in which a single element of the array meets every filter of the group, in both dialects |
| RecordFilter.KeyIsPath | internal/database/repositories/records.go:1477-1482 | group keys are non-empty and distinct for distinct array paths of valid names, so the path comparison at 1633 cannot fail on them |
| RecordFilter.ClauseIsReading | internal/database/repositories/records.go:1426-1471 | for every filter list and start number: the clause is built exactly when every filter is valid on its own, consumes exactly its parameters, and, bound by `?` order or by `$n`, keeps exactly the records the direct reading keeps, filters on one array path speaking of one common element |
| RecordFilter.BuildArrayAnyFilterCondition | internal/database/repositories/records.go:1619-1656 | the loop over a group, its running placeholder and early errors give the specified array condition |
| RecordFilter.BuildFilterClause | internal/database/repositories/records.go:1426-1471 | the loop with its set of processed groups and its running placeholder index gives the specified clause |
| RecordFilter.CollectGroup | internal/database/repositories/records.go:1444-1449 | the inner loop collects exactly the later filters with the key of the first |
| RecordQuery.DidMeaning | internal/database/repositories/records.go:1870-1895 | the DID clause: EQ wins over IN, an empty filter keeps all, more than 100 DIDs are refused |
| RecordQuery.LabelStringMeaning | internal/database/repositories/records.go:2009-2089 | each label string operator is built exactly for acceptable values and reads the label source or value accordingly |
| RecordQuery.SubqueryMeaning | internal/database/repositories/records.go:1961-2007 | a label subquery is TRUE on a label exactly when it is on the record (any or its CID) or on the author, meets all source and value filters and, if asked, is active |
| RecordQuery.LabelSetMeaning | internal/database/repositories/records.go:1897-1959 | the label clause keeps exactly the records having the labels asked for and not those excluded, for record and author subjects, with contiguous numbering |
| RecordQuery.WhereIsReading | internal/database/repositories/records.go:2410-2506 | whatever is asked for, the shared WHERE of a page is built exactly for valid queries, numbers all its parameters from 1, and keeps exactly the rows of the direct reading that lie past a general cursor |
| Sql.KeepsConcat | internal/database/repositories/records.go:1455-1468 | clauses numbered one after the other and joined with AND are numbered over both parameter lists and keep what both keep, under three-valued logic |
| RecordPage.PastCursorIsAfter | internal/database/repositories/records.go:2436-2466 | the OR-form cursor comparison holds exactly of the rows after the cursor in (value, uri) order |
| RecordPage.CursorFollowsOrder | internal/database/repositories/records.go:2442-2448 | the cursor comparison agrees with ORDER BY on all rows and cursors exactly when the direction is ASC or DESC (or no sort is given); for any other direction it compares with `>` while ORDER BY sorts DESC |
| RecordPage.RangeIsSegment | internal/database/repositories/records_created_at_keyset.go:64-91 | each range condition, in both directions and for dated and undated cursors, selects exactly its segment of the order with NULL oldest |
| Keyset.SegmentsAreRest | internal/database/repositories/records_created_at_keyset.go:41-91 | for any rows, direction and cursor the sorted segments in reading order are exactly the rows strictly after the cursor in the order where NULL is oldest and uri breaks ties |
| Keyset.ReadSegments | internal/database/repositories/records_created_at_keyset.go:173-186 | reads the first min(limit, total) rows of the segments in order, asking each only for the shortfall and none once the page is full; fails exactly when a request it makes fails |
| RecordPage.PageIsRest | internal/database/repositories/records.go:2410-2506 | for any table with unique URIs, any query, sort over never-NULL columns (ASC, DESC or default) or record_created_at (any direction), and any cursor: the page's statements, sorted and concatenated, are exactly the matching rows after the cursor |
| RecordPage.ReadSortedPage | internal/database/repositories/records_created_at_keyset.go:118-170 | a forward page is the first `limit` matching rows after the cursor; it fails exactly for invalid queries or when a statement that this page runs fails |
| RecordPage.RowCursor | internal/database/repositories/records.go:83-92 | the cursor made from a matching row stands for exactly that row, an undated row's cursor being empty |
| RecordPage.KeysAreRows | internal/database/repositories/records.go:2289-2321 | distinct rows have distinct sort keys |
| Keyset.WalkIsSorted | internal/database/repositories/records.go:2410-2506 | following last-row cursors over a fixed table ends and shows every matching row exactly once, in sort order |
| Keyset.BackwardPage | internal/database/repositories/records.go:2508-2519 | a reversed page, turned around, is exactly the last N rows strictly before the cursor in the original order |
| Keyset.ReverseInPlace | internal/database/repositories/records.go:2617-2620 | the two-index swap reverses the page in place |
| RecordPage.ReadReversedPage | internal/database/repositories/records.go:2581-2623 | a backward page through the reversed sort is the last `limit` matching rows before the cursor, in the original order; it fails exactly when the page it reads does |
| RecordPage.ReadAll | internal/database/repositories/records.go:2410-2506 | following last-row cursors through the statements ends, and the pages, all full but the last, together are the matching rows, once each, in sort order |
| Like.EscapesAgree | internal/database/repositories/records.go:3122-3127 | the three-pass escaping equals the single-pass one on every string |
| Like.LikeIsContains | internal/database/repositories/records.go:1574-1580 | `%` + escaped + `%` matches exactly the texts containing the value, under any character matching |
| Like.LikeIsStartsWith | internal/database/repositories/records.go:1581-1587 | escaped + `%` matches exactly the texts starting with the value |
| CollectionMatcher.NewCollectionMatcher | internal/database/repositories/record_versions.go:63-78 | the parsed matcher accepts exactly the collections some entry of the list names or has as a prefix pattern, and is empty exactly for a list of blanks |
| CollectionMatcher.SqlPredicate | internal/database/repositories/record_versions.go:99-114 | the loops number one placeholder per entry after the base and bind the exact names and escaped prefixes in that order; an empty matcher gives `1 = 0` |
| CollectionMatcher.PredicateSelects | internal/database/repositories/record_versions.go:97-118 | the SQL predicate selects exactly the collections named or having a prefix up to the characters LIKE identifies |
| CollectionMatcher.CaseSensitiveAgrees | internal/database/repositories/record_versions.go:84-114 | under a case-sensitive LIKE the SQL predicate selects exactly what Matches accepts |
| CollectionMatcher.FoldingAgrees | internal/database/repositories/record_versions.go:84-114 | under a LIKE that identifies more characters (SQLite), both agree on all collections exactly when every indistinguishable spelling of a prefix is itself below some prefix |
| CollectionMatcher.FoldingDisagrees | internal/database/repositories/record_versions.go:84-114 | a collection that SQLite's LIKE selects and Matches refuses |
| GraphClosure.Compute | internal/graphclosure/closure.go:56-165 | for every graph, degree and cap: accounts carry their true shortest distance even when truncated, are sorted, never exceed the cap; untruncated they are all accounts at distance 1..maxDegree; Via sets are sorted, duplicate-free, at most 64, empty exactly at degree 1, hold only accounts one degree closer with an edge, and all of them if untruncated and fewer than 64; the edge limit cannot overflow; one request is made per ring, for its accounts and with the limit still wanted; truncated only at the cap or when the last of these requests was, and then always; a valid request fails exactly when the last of them does |
| GraphClosure.Traverse | internal/graphclosure/closure.go:73-136 | the degree loop keeps exact distances and provenance, makes one request per ring with a limit that cannot overflow, and stops early only when truncated or exhausted |
| GraphClosure.RingIsDistance | internal/graphclosure/closure.go:78-136 | being new in the k-th ring is being at shortest distance k |
| GraphClosure.RingStep | internal/graphclosure/closure.go:88-135 | one iteration keeps soundness always, and completeness unless something was truncated |
| GraphClosure.ListAccounts | internal/graphclosure/closure.go:138-162 | the result lists every account seen except the root once, by degree then DID, with sorted Via |
| Endorsement.CollectRows | internal/database/repositories/records_endorsement.go:207-234 | the row loop keeps only well-formed edges up to the limit and reports truncation exactly when the query had more rows |
| Endorsement.Merge | internal/database/repositories/records_endorsement.go:99-104 | folding a batch into the result keeps per-issuer order, adds the counts and subtracts them from what remains |
| Endorsement.AdjacencyFor | internal/database/repositories/records_endorsement.go:58-116 | for any issuers, batch size and limit the result holds only real edges of the issuers, at most `limit` of them, and if not truncated all of them; truncated only at the limit or over malformed subjects; every batch is asked for exactly what remains of the limit; fails exactly when the last query it ran does |
| Endorsement.SourceImplementsGraph | internal/database/repositories/records_endorsement.go:118-234 | an edge source made of such answers implements the endorsement graph |
| Endorsement.EndorsementClosure | internal/graphclosure/closure.go:88-129 | composed with the closure, an untruncated result is exact on the whole endorsement graph, and it is truncated only at the cap or by the last request made |
| LexiconGraph.BuildReferenceGraph | internal/validation/validator.go:261-293 | fails exactly when a document does not decode or carries another id; for ids that are NSIDs the graph has a node for exactly the saved definitions, with exactly the references found in them |
| LexiconGraph.ValidateReferenceClosure | internal/validation/validator.go:347-361 | succeeds exactly when every reference leads to a saved definition |
| LexiconGraph.WithoutNonRecords | internal/validation/validator.go:93-113 | lexicons of endpoints and permissions are left out; fails exactly when one of them carries another id |
| LexiconGraph.NewValidator | internal/validation/validator.go:44-84 | construction succeeds exactly for sets in which all lexicons carry the ids they are saved under, those of records load, and their references all resolve among them |
| LexiconGraph.DefinitionRefInjective | internal/validation/validator.go:333-338 | definitions of ids without `#` never share a node |
| LexiconGraph.ReferencedLexiconIDs | internal/validation/validator.go:388-410 | the worklist ends and returns exactly the sorted ids of the lexicons the collection reaches |
| LexiconGraph.ReachedAreSaved | internal/validation/validator.go:388-410 | after construction everything a saved collection reaches is saved, so no id is skipped in the fingerprint |
| LexiconGraph.LexiconHash | internal/validation/validator.go:193-210 | a fingerprint exists exactly for saved collections and is the hash of id=hash lines of exactly the reached ids |
| LexiconGraph.SameReached | internal/validation/validator.go:388-410 | what a collection reaches depends only on the documents it reaches |
| LexiconGraph.AgreementGivesFingerprint | internal/validation/validator.go:193-210 | two valid saved sets that agree on the bytes of the reached documents give equal fingerprints |
| LexiconGraph.FingerprintGivesAgreement | internal/validation/validator.go:193-210 | with no hash collision on what is compared and ids without newline, equal fingerprints imply the same reached ids and bytes |
| RecordStore.NormalizeBackfill | internal/database/repositories/records.go:496-524 | succeeds exactly when every write is valid, owned by the DID and agrees with every duplicate of its URI; keeps each URI's first write and its place |
| RecordStore.FirstsAre | internal/database/repositories/records.go:504-522 | the kept writes are in input order, one per URI, none missing |
| RecordStore.FirstsCount | internal/database/repositories/records.go:504-522 | as many writes are kept as there are distinct URIs |
| RecordStore.ReadCIDs | internal/database/repositories/records.go:675-711 | reading in any batch size gives the stored CIDs of the URIs that exist |
| RecordStore.Classify | internal/database/repositories/records.go:589-598 | splits the writes into changed ones, in order, and unchanged non-empty CIDs to repair |
| RecordStore.ReplaceInChunks | internal/database/repositories/records.go:600-608 | chunking does not show in the upserted table |
| RecordStore.RepairInChunks | internal/database/repositories/records.go:609-617 | chunking does not show in the repaired table, and the affected-row check never fails |
| RecordStore.RepairsAffectAll | internal/database/repositories/records.go:665-671 | repairs of unchanged rows with distinct URIs affect exactly one row each |
| RecordStore.BatchIsUpserts | internal/database/repositories/records.go:600-617 | upserting the changed and repairing the rest equals upserting every first write in turn, up to validated_at |
| RecordStore.Records.UpsertWithValidation | internal/database/repositories/records.go:424-460 | one undisturbed write: refused exactly when invalid and then nothing changes; Skipped exactly for an unchanged non-empty CID; the new table is the specified one |
| RecordStore.UpsertOutcome | internal/database/repositories/records.go:421-460 | after any valid upsert the row shows its CID and verdict, the first date seen, and its content unless a known non-empty CID already stored it; other rows are untouched |
| RecordStore.UpsertTwice | internal/database/repositories/records.go:421-460 | writing a record twice equals writing it once, up to validated_at |
| RecordStore.Records.BatchUpsertForBackfill | internal/database/repositories/records.go:545-621 | a committed batch leaves, up to validated_at, what single upserts of the first occurrences leave, for any chunk size; ChangedIndices is strictly increasing and names exactly the changed first occurrences; with Skipped it counts the distinct URIs; any error changes nothing and comes from the input or a failing statement |
| RecordStore.DateIsKept | internal/database/repositories/records.go:776-836 | record_created_at once set is never overwritten by any number of writes |
| ValidationRefresh.StepIsSafe | internal/database/repositories/records.go:903-942 | every step of every writer (upsert, repair, delete, purge, marking, conditional update) keeps "current fingerprint implies the validator's verdict on the present content" and makes no row of an active collection stale |
| ValidationRefresh.RunIsSafe | internal/database/repositories/records.go:838-942 | so does any run of such steps in any order |
| ValidationRefresh.SharedRecords.Ingest | internal/database/repositories/records.go:424-460 | an ingestion upsert whose statements may fail, with the steps of other writers before each of them: it writes only by a repair or a full upsert, falls through to the upsert when the CID changed after its read, keeps the table sound, and if it succeeds the row shows its content and verdict |
| ValidationRefresh.UpsertIsStep | internal/database/repositories/records.go:424-460 | undisturbed it is one such step or nothing |
| ValidationRefresh.WorkingAdvances | internal/validationrefresh/scheduler.go:83-104 | a conditional update, applied or skipped, deals with its row even if other writers changed it since it was listed |
| ValidationRefresh.BatchShrinks | internal/validationrefresh/scheduler.go:76-107 | each batch moves past its last row and leaves strictly fewer stale rows beyond afterURI |
| ValidationRefresh.SharedRecords.RefreshBatch | internal/validationrefresh/scheduler.go:83-101 | working off a listing under interleaving leaves none of its rows stale |
| ValidationRefresh.SharedRecords.RefreshCollection | internal/validationrefresh/scheduler.go:62-107 | ends under any interleaving; changes the table only by scheduled steps of others and its own conditional updates or marks; keeps the table sound; fails only when a statement fails, and otherwise no row of the collection is stale |
| ValidationRefresh.RunKeepsHidden | internal/database/repositories/records.go:944-976 | once all rows of a collection without a saved lexicon are unknown_schema without a fingerprint, no run of writers brings one back |
| ValidationRefresh.SharedRecords.RefreshCollections | internal/validationrefresh/scheduler.go:33-60 | fails only when a statement fails; otherwise at the end, whatever was written meanwhile, no active collection has a stale row, and, as the validator knows no schema for them either, every row of every other collection is unknown_schema without a fingerprint |
| Redelivery.WordsAbsorb | internal/tap/handler.go:64-195 | the absorption law behind redelivery: redoing the later part of a log before the earlier part is redone changes nothing, whenever both parts already lead to the same state |
| Redelivery.RunsConverge | internal/tap/consumer.go:270-311 | any run of stretches that never skips forward, continued to the end, ends where one clean pass ends |
| TapIngest.UriTextInjective | internal/tap/event.go:46-49 | URI texts of parts without slashes are distinct |
| TapIngest.StepActs | internal/tap/handler.go:64-195 | each store step (ensure, append, upsert, delete with history, purge, identity) leaves, overwrites or fills in each observation |
| TapIngest.RedeliveryConverges | internal/tap/handler.go:64-195 | for any log of store steps: crashing between any two statements and redelivering from any earlier point, any number of times, ends with the record contents, record_created_at, version keys and actor handle of one clean pass |
| TapIngest.DeliveriesAreRun | internal/tap/handler.go:64-195 | deliveries of a list of events, each of the event due or an earlier one and each handled up to any statement, are such a run over the steps of these events once passed-over Ensures are put back |
| TapIngest.EventsConverge | internal/tap/handler.go:64-195 | so for any list of events and any such deliveries that end with all events handled, contents, dates and version keys are those of one clean pass, and so are actors unless an Ensure was passed over |
| TapIngest.Consume | internal/tap/consumer.go:270-311 | the handlers run on deliveries in per-repo order with any statements and acks failing: once all events are acked the index shows what one clean pass leaves, on actors too if no Ensure failed |
| TapIngest.SuffixReplayIsInvisible | internal/database/repositories/record_versions.go:144-183 | replaying any suffix of the handled events changes nothing observed |
| TapIngest.OtherReposAreInvisible | internal/database/repositories/records.go:2726-2755 | steps of other repositories do not show, so their interleaving does not matter |
| TapIngest.Index.HandleRecord | internal/tap/handler.go:64-173 | writes a prefix of the event's steps, succeeds exactly when nothing but the actor ensure failed and the write is not refused, and then has written all of them |
| TapIngest.Index.HandleIdentity | internal/tap/handler.go:175-206 | purges exactly the gone statuses, otherwise sets the handle |
| TapIngest.Index.Dispatch | internal/tap/consumer.go:270-311 | an event is acked exactly when its write is not refused, no counted statement fails and the ack can be sent; then its effect is stored: records, dates, versions and identities show it; the actor row exists exactly if it existed or could be ensured |
| TapIngest.AckWithoutActor | internal/tap/handler.go:76-80 | a dispatch that is acked and leaves no actor row |
| TapIngest.OutOfOrderDiverges | internal/tap/consumer.go:244-265 | an event redelivered only after its successor loses the successor; the reason redelivery must follow per-repo order |
| TapIngest.RefusedIsInvalid | internal/database/repositories/records.go:730-740 | an event is refused exactly when the repositories refuse its write |
| ActiveLabels.ActiveIsLatest | internal/database/repositories/external_labels.go:652-696 | the NOT EXISTS predicate selects the single (cts, id)-greatest label of its group if un-negated and unexpired, and nothing otherwise |
| ActiveLabels.ArrivalOrderIrrelevant | internal/database/repositories/external_labels.go:652-696 | the active set is the same for every order of arrival, and for every order with replays, exactly when different labels sharing the greatest creation time of their group are all negated or expired |
| ActiveLabels.DistinctTimesSuffice | internal/database/repositories/external_labels.go:652-696 | so with distinct creation times it depends on neither order nor replays |
| ActiveLabels.TieDependsOnOrder | internal/database/repositories/external_labels.go:671-676 | a live label that ties with another for the greatest creation time is active in one order of the same arrivals and not in another |
| ActiveLabels.KeyRoundTrip | internal/database/repositories/external_labels.go:141-146 | a validated subject can be read back from its key |
| ActiveLabels.NormalizeSubjects | internal/database/repositories/external_labels.go:712-738 | fails exactly on an invalid subject; otherwise lists each subject once, with distinct keys |
| ActiveLabels.GetBySubjectsBatch | internal/database/repositories/external_labels.go:454-529 | collects every subject's rows under its key, newest first |
| ActiveLabels.GetBySubjects | internal/database/repositories/external_labels.go:419-452 | every requested subject gets exactly its matching labels, newest first, whatever the batch size; refused exactly for invalid subjects or filters |
| FatalMarker.MarkerIsFatal | internal/database/repositories/external_labels.go:834-846 | the stored marker always reads as fatal and is always recognized by the update guard, for every code and message, whole or cut off at 4096 bytes, be it inside a character |
| FatalMarker.CodeRoundTrip | internal/database/repositories/external_labels.go:83-94 | the code read back is the normalized code written exactly when it has no colon and fits behind the prefix in 4096 bytes |
| FatalMarker.StuckIs | internal/database/repositories/external_labels.go:271-275 | the LIKE guard holds of exactly the texts that match the prefix but for the sixth character |
| FatalMarker.FatalIsStuck | internal/database/repositories/external_labels.go:74-79 | every stored text read as fatal is guarded |
| FatalMarker.StuckNotFatal | internal/database/repositories/external_labels.go:293-300 | a text that is guarded but not fatal |
| Labeler.Repository.PersistEvent | internal/database/repositories/external_labels.go:326-361 | inserts the labels not yet stored and advances the cursor, both or neither |
| Labeler.ConnectedClearsError | internal/database/repositories/external_labels.go:265-283 | an error recorded in a row open to updates is cleared by the next connection exactly when its text does not guard the row; labels and cursor stay |
| Labeler.ErrorIsShown | internal/database/repositories/external_labels.go:286-305 | a row open to updates then shows a non-empty text of at most 4096 bytes: the trimmed error, or its first bytes |
| Labeler.MarkedCode | internal/database/repositories/external_labels.go:308-323 | from any row: the error then reads as fatal, its code can be read back exactly when it has no colon and fits, and labels and cursor stay |
| Labeler.CursorNeverDecreases | internal/database/repositories/external_labels.go:578-606 | last_seq never decreases over any run |
| Labeler.GreatestIs | internal/database/repositories/external_labels.go:578-606 | what the greatest number means: the start or a number some step persists, and no step persists a greater one |
| Labeler.GuardedExactly | internal/database/repositories/external_labels.go:265-323 | over any run from an open row: the row ends up guarded exactly when some step wrote a guarded text, and last_seq is the greatest number persisted before that |
| Labeler.CursorFollows | internal/database/repositories/external_labels.go:578-606 | after any run, persisting any number brings last_seq at least there exactly when no step of the run wrote a guarded text |
| Labeler.CursorFollowsWhileNotFatal | internal/database/repositories/external_labels.go:578-606 | the same as long as the row is not fatal: exactly when no step guards the row, or the text that first guards it reads as fatal, or the row gets marked |
| Labeler.CursorIsGreatest | internal/database/repositories/external_labels.go:578-606 | last_seq is the greatest number persisted exactly when nothing persisted after the row was guarded goes beyond what was persisted before; so always when no step guards |
| Labeler.GreatestWhileNotFatal | internal/database/repositories/external_labels.go:578-606 | while no error text passes for a marker, the row is fatal exactly when it was marked, and otherwise last_seq is the greatest number persisted |
| Labeler.FatalIsSticky | internal/database/repositories/external_labels.go:265-323 | after MarkFatalCursor no run of repository operations clears the marker or moves the cursor |
| Labeler.ErrorFreezesCursor | internal/database/repositories/external_labels.go:286-305 | an argument of UpdateError that freezes the cursor without being fatal |
| Labeler.ReplayAddsNothing | internal/database/repositories/external_labels.go:542-576 | persisting stored labels again adds nothing |
| Labeler.FirstLabelsAre | internal/database/repositories/external_labels.go:542-576 | the labels of the first events are exactly one entry per label of each of those events |
| Labeler.RunOnce | internal/labeler/subscriber.go:142-215 | one connection, in which any statement may fail: a fatal row is left alone without connecting; otherwise exactly the events that arrive and can be stored are added, the labels stay those of all events up to the cursor, and it stops exactly on a fatal frame that could be recorded after storing all |
| Labeler.RunSubscription | internal/labeler/subscriber.go:98-140 | over any sequence of connections and failures, of the connection or of any statement, the stored labels are exactly those of all events up to last_seq, which never decreases and gets exactly as far as the connections allow; it stops exactly at the first fatal cursor that is recorded, and a fatal row is never changed |
| Labeler.LiteralsAreOpen | internal/labeler/subscriber.go:142-207 | the subscriber's own error texts never pass for a marker |
| Statements.QuotedLength | internal/database/migrations/statements.go:92-107 | the length of a quoted token with doubled quotes, to the end of input if unterminated |
| Statements.SplitStatements | internal/database/migrations/statements.go:37-88 | the index-driven scanner gives the specified statements |
| Statements.SplitStatementsAreClean | internal/database/migrations/statements.go:33-88 | every statement is trimmed, non-empty, has no top-level semicolon and no comment, and all but the last end outside quotes |
| Statements.SplitIsFixpoint | internal/database/migrations/statements.go:37-88 | every statement splits again to exactly itself, also with unterminated quotes, dollar quotes or comments in the input |
| Statements.JoinSplits | internal/database/migrations/statements.go:37-88 | any list of such statements, joined with semicolons, splits into itself |
| Statements.SplitJoinRoundTrip | internal/database/migrations/statements.go:37-88 | splitting the semicolon-joined output returns the same list |
| Statements.SplitConcat | internal/database/migrations/statements.go:37-88 | a semicolon after a script that ends outside quotes and comments separates it from what follows |
| Statements.LineCommentIsDropped | internal/database/migrations/statements.go:50-56 | a line comment disappears, its newline stays |
| Statements.BlockCommentIsBlank | internal/database/migrations/statements.go:57-64 | a block comment reads as one blank |
| Statements.QuotedTextIsKept | internal/database/migrations/statements.go:65-68 | quoted text is kept whatever it contains |
| Statements.DollarBodyIsKept | internal/database/migrations/statements.go:69-77 | a dollar-quoted body is kept up to the first repetition of its tag |
| DpopReplay.AcceptedAtMostOnce | internal/oauth/middleware.go:117-141 | over all runs with concurrent requests of both acceptors, clock steps and cleanups, every proof passes at most once exactly when the age limit plus the time a request may take after its verification is at most 3600 seconds |
| DpopReplay.RunRemembers | internal/oauth/dpop.go:395-405 | within that bound every accepted proof is still stored or already older than the retention |
| DpopReplay.StalledIsAcceptedTwice | internal/server/oauth_handlers.go:1123-1124 | beyond it, a stalled request whose entry was cleaned up accepts a proof a second time |
| DpopReplay.DefaultIsSafe | internal/oauth/middleware.go:26-27 | with the default age of 300 seconds proofs pass at most once exactly when requests take at most 55 minutes |
| DpopReplay.StepRemembers | internal/database/repositories/oauth_dpop_jti.go:24-84 | each step of a run keeps it so |
| DpopReplay.JtiTable.Accept | internal/server/oauth_handlers.go:975-999 | an undisturbed request does what its three steps do in a run |
| DpopReplay.JtiTable.Insert | internal/database/repositories/oauth_dpop_jti.go:24-36 | fails exactly on a stored jti |
| DpopReplay.DeletedIsTooOld | internal/oauth/dpop.go:395-405 | whatever a cleanup deletes fails the age check then and ever after, exactly when the age limit is at most the retention |

## Left out

- HTTP, WebSocket, DNS, goroutines, timers, contexts and logging; only the steps they trigger are kept.
- The SQL text itself and both database engines; conditions are syntax trees, and errors an engine raises while
  evaluating a cast are not modelled.
- JSON oddities on which the two engines differ, such as duplicate keys; objects are maps.
- Panics on invalid JSON field names are modelled as the same refusal as error returns.
- The parameter count limit of SQLite on whole statements.
- RecordPage.PageIsRest: sorts by a JSON property, whose value may be NULL, are left out because the pager does not promise a complete walk there.
- RecordPage.ReadSortedPage: models a page read from one snapshot; the repository reads segments one after the other and says that a concurrent write may repeat or miss one row.
- RecordStore.Records.UpsertWithValidation: runs undisturbed and without failing statements; ValidationRefresh.SharedRecords.Ingest has both.
- RecordStore.Records.BatchUpsertForBackfill: all writes of a batch carry one time stamp, and locks are left out.
- indexed_at compares JSON texts; PostgreSQL compares jsonb values.
- Legacy Insert and BatchInsert, DeleteAll and admin reset carry no validation metadata.
- TapIngest.Index.Dispatch: disabled acks and unknown event types, which are never acked, are left out.
- SeedBaseline writes a key `baseline` for an empty CID, unlike Append; it is not part of the redelivered steps.
- The startup reconciliation of missing handles.
- FatalMarker.MarkerIsFatal: a text cut inside a character is stored as it is, as SQLite does; PostgreSQL would refuse the statement, which Labeler.RunOnce covers as a failing one.
- Instants of labels are integers; parsing of timestamps is not modelled.
- LexiconGraph.NewValidator: whether a lexicon loads into the GraphQL registry and the Indigo catalog is a function of its id and bytes; the graph is described for ids without `#` and newline, as NSIDs are.
- DPoP signatures, key thumbprints, coordinate padding and the OAuth flows.
- GraphQL schema building, the admin API, configuration, the Jetstream consumer, the client and plain CRUD repositories would only add easy members.
