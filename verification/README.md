# Voltra: a verified model of its state machines

Voltra is a real-time database server: reducers change rows in tables, every change is logged, and
clients subscribed to a query receive the changes. This project models the parts of the server where
a fast or incremental mechanism has to agree with a simple one, and proves that it does. Where it
does not, an input shows it and the exact condition under which it does is proved.

Methods and classes follow the code that works step by step (locks, loops, caches); each is proved
against functions on values, and the theorems are about those functions.

## The parts

- **Subscription engine** (`src/subscriptions.rs`): the filter evaluator (`Filter`), the reverse index
  from tables to subscribers (`Registry`, `Subscriptions`), the candidate sets from secondary indexes
  (`TableStore`, `SnapshotIndex`), ORDER BY and LIMIT (`OrderedSnapshot`) over numbers that are rounded
  to doubles (`Rounding`), field patches and the row cache (`PatchStream`, `TickDelivery`), the tick
  flusher against concurrent publishers (`TickCoalescing`), the query parser (`QueryParser`) and the
  round trip of queries (`QueryText`, `QueryRoundTrip`, `FilterPrinter`).
- **Leaderboard** (`src/leaderboard.rs`): doubles as their 64 bits with an integer meaning (`F64`), the
  sortable key (`ScoreKey`), the board (`Leaderboard`), the capped board against the uncapped stream
  (`StreamingTopK`), the cross-region merge (`RegionMerge`).
- **Batch commit** (`src/table/mod.rs`): the staged deltas of a reducer, counter additions included,
  and what a failing batch leaves behind (`Commit`).
- **TTL manager** (`src/ttl.rs`): a binary heap with lazy deletion (`MinHeap`) that behaves like a map of
  deadlines (`Ttl`).
- **Recovery** (`src/app/`, `src/wal/`): replay of the log over a fuzzy snapshot (`Recovery`) and the
  numbering of entries across crashes (`CrashCycles`).
- **Tenants** (`src/tenant.rs`): naming (`TenantNames`), registry and caches (`Tenant`), rate limit
  (`TenantRate`).
- **Schema and migrations** (`src/schema.rs`, `src/migrations.rs`): `Schema`, `Migrations`, whole runs
  over the list of files (`MigrationRuns`) and the retry of a failed file (`MigrationRetry`).

`Wrappers`, `Sequences`, `Strings`, `Text` and `Json` hold what these share.

## Where the code falls short of its documentation

Each item is a lemma with an input; after the arrow stands the exact condition, proved for all inputs.

- `ORDER BY … DESC` puts rows without the field first; the comment at `src/subscriptions.rs:26` says
  last (`MissingFieldsEnd`, for every list of rows and both directions).
- Integers beyond 2^53 mixed with doubles are not ordered (`RoundedIntegersAreNotOrdered`) → the
  comparison of three values is transitive, and a list of rows is in order once its neighbours are, if
  and only if no two different integers round to one double that is also there (`CompareValuesPreorder`,
  `NeighboursDecide`).
- An indexed snapshot can miss rows a scan finds: -0.0 against 0.0 (`NegativeZeroIsMissed`), `row_key`
  of a row that is not an object (`KeyOfNonObjectIsMissed`), and every row of a lobby table
  (`LobbyCandidates`) → `SnapshotIsExact`, and `MissedByEquality` for one equality.
- A patch cannot take a field away (`DroppedFieldSurvives`) → `DeltaIsExact`. After one lost frame the
  next patch builds on a row the client never had (`LostFrameDiverges`) → `PatchIsExact`.
- Parentheses in WHERE are not grouping: a parenthesised condition never parses to what it says, nor as
  an operand of AND (`ParenthesesAreNotGrouping`, `ParenthesizedOperand`, `ParenthesizedRight`) → without
  them every query does (`RoundTrip`).
- A literal that is a single quote character slices with crossed bounds, a panic
  (`LoneQuoteQueryCrashes`) → `LoneQuoteCrashes`.
- A batch commit that fails for missing data or an unreadable counter returns without undoing the writes
  before it (`src/table/mod.rs:1526-1528`, `:1554`); the comment at `src/table/mod.rs:1383-1386` promises
  a rollback after any error. `WitnessChanges` builds the store that shows it, for every such batch →
  `AtomicIff`.
- The very first log entry has number 0 and is skipped by recovery (`FirstEntryIsLost`) →
  `FirstEntryIsSkipped`. Rotating the log after a snapshot also drops entries the snapshot does not hold
  (`RotationLosesLaterEntry`) → `RotationIsExact`. Numbers drawn in another order than the commits roll a
  row back (`InvertedNumbersRollBack`) → `RecoveredRow`, `FuzzyRecovery`. A torn frame hides everything
  appended after it (`TornFrameHidesAppends`) → `StepIsExact` says for every step, and `RunIsExact` for
  every run, whether a crash can lose a logged commit.
- A capped leaderboard forgets what an evicted player had: a negative zero or a clock that runs
  backwards then makes it differ from the uncapped one (`NegativeZeroBreaksTopK`,
  `BackwardClockBreaksTopK`) → `StreamingTopK.StepIsExact`, `AgreesIffHarmless`.
- After a collision of generated ids the overwritten tenant's key keeps opening the new tenant until
  the next rehydration (`CollisionKeepsOldKey`) → `CreateMirrors`.
- A migration file that fails half-way is not recorded, its first steps stay in effect, and running it
  again can overwrite or lose data (`RetryOverwrites`, `RenameThenAddIsUnsafe`,
  `RemoveThenRenameIsUnsafe`) → `RetryIsHarmless`, `RetriedFileIsHarmless`.

## Assumptions

- Concurrent calls are atomic, except the flusher, whose steps interleave with publishers.
- Each send attempt succeeds, finds a full buffer or finds the channel closed, as the environment likes.
- Text of values (`Printer`), the parser of doubles (`DoubleParser`), the cast of an integer to a double
  (`Cast`), the size test of patches (`SizeTest`), clocks and random suffixes are parameters.
- Queries are ASCII.

## Model

| member | source | states |
|---|---|---|
| ScoreKeys.EncodeDecode | src/leaderboard.rs:91-132 | decoding a key gives back the score bit for bit, and encoding a decoded key gives back the key, in both sort orders |
| ScoreKeys.EncodedOrderIsNumericOrder | src/leaderboard.rs:91-114 | for scores that are not NaN the keys are ordered as the numbers are (reversed for highest first), except that -0.0 comes before 0.0 |
| Leaderboard.LeaderboardEngine.SubmitScore | src/leaderboard.rs:171-254 | an unknown board is an error; otherwise exactly this board changes, and the answer is the rank or the eviction error |
| Leaderboard.LeaderboardEngine.EvictDown | src/leaderboard.rs:171-254 | the eviction loop computes Evict, which EvictIsPrefix characterises |
| Leaderboard.SubmitConsistent | src/leaderboard.rs:171-254 | every submission keeps entries and player index inverse to each other, sorted and within the cap |
| Leaderboard.EvictIsPrefix | src/leaderboard.rs:171-254 | eviction keeps exactly the first max_entries slots and the players they name |
| Leaderboard.LeaderboardEngine.RemovePlayer | src/leaderboard.rs:369-382 | removes the player from entries and index, and tells whether it was there |
| Leaderboard.WithdrawConsistent | src/leaderboard.rs:369-382 | a removal keeps the board consistent |
| Leaderboard.LeaderboardEngine.Top | src/leaderboard.rs:257-277 | the first ranks in order, or the unknown board error |
| Leaderboard.LeaderboardEngine.GetRank | src/leaderboard.rs:280-302 | rank, score and total of a player, or the error that applies |
| Leaderboard.LeaderboardEngine.GetAround | src/leaderboard.rs:305-337 | the window around a player, or the error that applies |
| Leaderboard.LeaderboardEngine.GetRange | src/leaderboard.rs:340-366 | the ranks asked for; rank 0 and inverted ranges are errors |
| Leaderboard.RankAgreesWithListing | src/leaderboard.rs:449-452 | the rank of a player is the one position at which every listing that covers it shows that player, and no listing shows it elsewhere |
| Leaderboard.AroundWindow | src/leaderboard.rs:305-337 | the window is contiguous, holds exactly the ranks at most count away that exist, and shows the player at its rank |
| Leaderboard.InfoScoreIsEntryScore | src/leaderboard.rs:280-302 | the score decoded from the key is the one submitted, and the percentile is between 0 and 100 |
| StreamingTopK.StepIsExact | src/leaderboard.rs:171-254 | one submission keeps the capped board the first entries of the uncapped one if and only if it is Harmless, a test on the board before the call |
| StreamingTopK.UncappedIsBestPerPlayer | src/leaderboard.rs:171-254 | without a cap, over any stream with non-decreasing clock and neither NaN nor -0.0, the board ranks exactly the best key of every player |
| StreamingTopK.CappedShowsUncapped | src/leaderboard.rs:171-254 | over any such stream the capped board holds exactly the first max_entries of the uncapped board, although evicted players resubmit |
| StreamingTopK.ResultAgreesWithUncapped | src/leaderboard.rs:171-254 | a submission is answered with the eviction error exactly when its player ranks past the cap on the uncapped board, else with that rank |
| StreamingTopK.AgreesIffHarmless | src/leaderboard.rs:171-254 | over any stream at all the capped board shows the first entries of the uncapped one after every submission if and only if every submission was harmless |
| StreamingTopK.ServeStream | src/leaderboard.rs:158-254 | a board of an engine, created and fed a plain stream, holds the first max_entries of the uncapped board; a board of the same name is replaced, the others stay |
| StreamingTopK.NegativeZeroBreaksTopK | src/leaderboard.rs:91-114 | with -0.0 in the stream the capped board can differ |
| StreamingTopK.BackwardClockBreaksTopK | src/leaderboard.rs:171-254 | with a clock that runs backwards the capped board can differ |
| RegionMerge.MergeOfTopsIsMergeOfBoards | src/leaderboard.rs:852-906 | for descending regions the N best of every region's own top N are the N best of all regions, ties included |
| RegionMerge.SortSorts | src/leaderboard.rs:852-906 | the stable descending sort orders the rows and keeps them as a multiset |
| RegionMerge.BoardListsDescending | src/leaderboard.rs:257-277 | a highest-first board lists its scores in descending numeric order |
| RegionMerge.TopIsTruncated | src/leaderboard.rs:908-934 | a region's top N is the first N rows of its whole board |
| RegionMerge.Aggregate | src/leaderboard.rs:852-906 | one cycle changes only the global board, which takes the merged rows in order; a failed fetch contributes nothing |
| RegionMerge.CycleTakesTheBest | src/leaderboard.rs:852-906 | for highest-first boards without NaN and with every fetch answered, the rows a cycle submits are the N best of all rows of all boards together |
| MinHeap.Heap.Push | src/ttl.rs:64-78 | keeps the heap order and adds exactly this entry |
| MinHeap.Heap.Pop | src/ttl.rs:118-151 | removes exactly the top entry, an earliest one, and keeps the heap order |
| Ttl.TtlManager.SetExpiresAt | src/ttl.rs:64-78 | the map of deadlines holds the new deadline, the others as before |
| Ttl.TtlManager.SetTtl | src/ttl.rs:56-59 | the deadline is the time of the call plus the time to live |
| Ttl.TtlManager.CancelTtl | src/ttl.rs:83-86 | the deadline is gone from the map and the answer tells whether there was one |
| Ttl.TtlManager.CollectExpired | src/ttl.rs:118-151 | returns exactly the live deadlines at or before now, each once and in order, and leaves exactly the later ones |
| Ttl.RunIsLastSet | src/ttl.rs:64-151 | over every run of sets, cancels and collections a key is live exactly if its last set was neither cancelled nor collected, with that deadline |
| Ttl.ReturnedOnceForEachSet | src/ttl.rs:118-151 | between two collections that return the same key it was set again |
| Recovery.RecoverFromWal | src/app/mod.rs:28-55 | replays exactly the entries above the floor in log order, counts them and finds the largest number; a malformed delta stops it where it stands |
| Recovery.Boot | src/app/bootstrap.rs:68-139 | disk store, snapshot and log in that order; unless the replay ends with an error the counter starts above the floor and above every number in the log |
| Recovery.FuzzyRecovery | src/app/mod.rs:28-55 | if each row was caught between the entries held by the snapshot and any later ones, replaying above the snapshot number gives the store of the whole log if and only if for every row the last replayed write leaves what the last write left |
| Recovery.UninvertedRecovers | src/app/bootstrap.rs:916-970 | recovery is right whenever no row has its last writer at or below the snapshot number and another writer above it, which holds of every log whose numbers grow |
| Recovery.RecoveredRow | src/app/mod.rs:28-55 | the same equivalence for one row: recovered exactly if the last replayed write leaves what the last write left, or nothing is replayed for it |
| Recovery.DroppingHeldEntries | src/app/bootstrap.rs:112-139 | dropping the entries up to the snapshot number changes nothing for recovery |
| Recovery.RotationIsExact | src/wal/batch_writer.rs:190-239 | recovery without the rotated file agrees with recovery with it if and only if the snapshot already has every row as the rotated entries left it, unless a kept entry writes it again |
| Recovery.QuietRotation | src/wal/batch_writer.rs:84-88 | rotation is safe when the old file holds nothing above the snapshot number |
| Recovery.FirstEntryIsSkipped | src/app/mod.rs:28-55 | with entry 0 in the log, recovery agrees with the log if and only if later entries write every row entry 0 wrote |
| Recovery.RotationLosesLaterEntry | src/wal/batch_writer.rs:190-239 | a write that was logged before the rotation and after the snapshot is gone |
| Recovery.InvertedNumbersRollBack | src/app/bootstrap.rs:916-932 | two workers that draw numbers in another order than they committed make recovery roll a row back |
| CrashCycles.StepKeepsInvariant | src/app/bootstrap.rs:112-139 | append, snapshot, rotation, corruption and reboot keep the invariant of the numbering |
| CrashCycles.EveryRun | src/app/bootstrap.rs:112-139 | the invariant holds in every state of every run |
| CrashCycles.NextNumberIsNew | src/app/bootstrap.rs:348 | in every run the next number exceeds the snapshot's number and every readable number in the log, bad checksums included |
| CrashCycles.SkippedEntriesAreHeld | src/app/mod.rs:36-41 | an entry that recovery skips is held by the snapshot, or is entry 0 |
| CrashCycles.FirstEntryIsLost | src/app/mod.rs:36-41 | a run of the fresh system in which the first entry does not survive the first crash |
| CrashCycles.TornFrameHidesAppends | src/wal/reader.rs:22-84 | behind a torn frame nothing appended can be read until the log is rotated |
| CrashCycles.StepIsExact | src/app/bootstrap.rs:916-970 | from a state in which a crash loses no logged commit, a step leads to such a state if and only if: an append is readable and above the floor or restorable anyway, a rotation finds every logged commit in the snapshot, a corrupted entry is restorable otherwise; other steps never lose anything |
| CrashCycles.RunIsExact | src/app/mod.rs:28-55 | over a whole run a crash at any moment restores every logged commit if and only if every step met that condition |
| Tables.TableStore.SetRow | src/table/mod.rs:1241-1312 | exactly this row changes, with the row key injected; every index stays complete, and free of stale keys if it was |
| Tables.TableStore.DeleteRow | src/table/mod.rs:1314-1353 | exactly this row goes; every index stays complete, and free of stale keys if it was |
| Tables.TableStore.EvictRow | src/table/mod.rs:1640-1654 | an eviction takes exactly this row away behind the indexes: they stay complete but may keep a stale key |
| Tables.TableStore.CreateIndex | src/table/mod.rs:1804-1827 | no row changes, and the index exists afterwards and is complete; if no index had a stale key the new one has none either |
| Tables.TableStore.ListRowsWithKeys | src/table/mod.rs:1958-1982 | every row of the table exactly once |
| SnapshotIndex.CandidatesCover | src/subscriptions.rs:903-959 | for every predicate tree and every choice of indexed fields the candidate keys include every matching row, provided equal values have equal index texts |
| SnapshotIndex.CandidatesAreTextHits | src/subscriptions.rs:903-959 | without stale keys the candidate keys are exactly the rows whose index texts hit the predicate tree |
| SnapshotIndex.CandidatesDistinct | src/subscriptions.rs:903-959 | no candidate key is repeated |
| SnapshotIndex.PlainIsFaithful | src/table/mod.rs:2171-2179 | the proviso holds for rows that are objects carrying their own key, as long as neither rows nor literals hold a negative zero |
| SnapshotIndex.MatchingRows | src/subscriptions.rs:392-442 | every equality of the condition is indexed afterwards, no row changes, and the result is exactly the matching rows among those looked at, the candidates or else all, each once |
| SnapshotIndex.SnapshotIsExact | src/subscriptions.rs:392-442 | the snapshot is what a scan delivers if and only if no index decides, or, for a lobby table, nothing matches, or, for another table without stale keys, the index texts of every matching row hit |
| SnapshotIndex.SafeIsScanned | src/subscriptions.rs:392-442 | stale keys included, the snapshot is what a scan delivers whenever equal values have equal index texts and the table is no lobby table |
| SnapshotIndex.MissedByEquality | src/subscriptions.rs:878-959 | for one indexed equality a row is missed if and only if it matches and its index text differs from that of the literal |
| SnapshotIndex.LobbyCandidates | src/table/mod.rs:1804-1896 | the candidates of a lobby table are always empty |
| SnapshotIndex.NegativeZeroIsMissed | src/table/mod.rs:2171-2179 | a run that stores a row with -0.0 and takes the snapshot for = 0.0: the row matches and the snapshot is empty |
| SnapshotIndex.KeyOfNonObjectIsMissed | src/subscriptions.rs:867-873 | a run that stores a row that is no object and takes the snapshot for its row_key: the row matches and the snapshot is empty |
| Rounding.ScaledIntMonotone | src/subscriptions.rs:961-972 | rounding an integer of any size to a double keeps the order |
| Rounding.NumbersPreorder | src/subscriptions.rs:961-972 | comparing numbers backwards reverses the answer, and "not after" is transitive over three numbers if and only if they are not two different integers around a double both round to |
| Rounding.SmallIntegersDoNotCollide | src/subscriptions.rs:961-972 | integers up to 2^53 never do that |
| OrderedSnapshot.CompareValuesPreorder | src/subscriptions.rs:976-989 | the comparison of field values of any kinds, missing ones included, reverses when turned round, and is transitive over three values if and only if they are no such numbers |
| OrderedSnapshot.RoundedIntegersAreNotOrdered | src/subscriptions.rs:961-972 | 2^53 + 1, the double 2^53 and 2^53 are each not after the next, and the first is after the last |
| OrderedSnapshot.NeighboursDecide | src/subscriptions.rs:444-465 | every list of the rows whose neighbours are in order is in order if and only if no two different integers among the rows round to one double among them |
| OrderedSnapshot.DeliveredIsBest | src/subscriptions.rs:444-465 | without such rows, what is delivered is in order, with the omitted rows it is all matching rows, and no omitted row comes before a delivered one |
| OrderedSnapshot.MissingFieldsEnd | src/subscriptions.rs:976-989 | rows without the field come last in ascending and first in descending order |
| OrderedSnapshot.InitialSnapshot | src/subscriptions.rs:383-465 | the initial rows of a subscription are the delivered part of exactly the matching rows among those looked at |
| PatchStream.PatchIsExact | src/subscriptions.rs:232-248 | merging the patch gives the new row if and only if the copy has the cached values elsewhere and no field the new row lacks |
| PatchStream.ComputePatch | src/subscriptions.rs:232-248 | the loop collects exactly the changed fields, or nothing if there are none |
| PatchStream.DeltaIsExact | src/subscriptions.rs:698-778 | a diff keeps a synchronised copy synchronised if and only if a patch is not sent for an update that drops a field |
| PatchStream.PatchesSimulateDeltas | src/subscriptions.rs:698-778 | over any stream that drops no field the replayed diffs keep the copy equal to the cache and to the replay of the raw deltas, whichever way the size tests go |
| PatchStream.DroppedFieldSurvives | src/subscriptions.rs:232-248 | an update that drops a field leaves it at the client |
| PatchStream.LostFrameDiverges | src/subscriptions.rs:780-812 | after a frame lost to a full buffer the next patch gives a row that never existed |
| Registry.WalkIsScan | src/subscriptions.rs:574-650 | walking the index finds a pair exactly if scanning every client and subscription does |
| Registry.SubscribeCovered | src/subscriptions.rs:375-390 | subscribing keeps every live subscription listed, also when a live id is reused |
| Registry.SubscribeTight | src/subscriptions.rs:375-390 | if the id is not live, no stale or repeated entry appears |
| Registry.DropCovered | src/subscriptions.rs:510-540 | unsubscribing unlists nothing else |
| Registry.DropTight | src/subscriptions.rs:510-540 | unsubscribing leaves no stale entry |
| Subscriptions.SubscriptionManager.RegisterClient | src/subscriptions.rs:326-338 | a client id not in use, with nothing subscribed |
| Subscriptions.SubscriptionManager.Subscribe | src/subscriptions.rs:358-390 | fails without a change for a bad query or unknown client, else adds exactly this subscription |
| Subscriptions.SubscriptionManager.Unsubscribe | src/subscriptions.rs:510-522 | removes exactly this subscription, tells whether it was there, and fails for an unknown client |
| Subscriptions.SubscriptionManager.UnregisterClient | src/subscriptions.rs:340-347 | removes exactly this client and leaves no entry of it |
| Subscriptions.SubscriptionManager.PublishRouted | src/subscriptions.rs:590-640 | two-frame mode: exactly the matching pairs are reached, one frame for each client; exactly the clients with a full buffer are dropped |
| Subscriptions.SubscriptionManager.PublishLegacy | src/subscriptions.rs:640-693 | legacy mode: exactly the matching pairs are reached, each distinct id encoded once; exactly the clients with a full buffer are dropped |
| Subscriptions.SubscriptionManager.EncodeRuns | src/subscriptions.rs:661-686 | the run loop over the sorted pairs encodes each distinct id once |
| Subscriptions.SubscriptionManager.PublishNow | src/subscriptions.rs:574-693 | each delta of a list reaches exactly its targets among the clients left by those before |
| Subscriptions.RoomForAll | src/subscriptions.rs:574-693 | without full buffers no client is dropped, so each delta reaches its targets among all clients |
| Subscriptions.SubscriptionManager.PublishDeltas | src/subscriptions.rs:544-561 | tick mode stages the latest delta of every row, otherwise the deltas go out now; without clients nothing happens |
| Subscriptions.SubscriptionManager.FlushTick | src/subscriptions.rs:292-322 | the batch is exactly the pending deltas, each row once, and pending is empty afterwards |
| Subscriptions.SubscriptionManager.PublishBatch | src/subscriptions.rs:698-813 | every client gets exactly the diffs of the deltas that reach it, and caches, missed ticks and evictions are as sends decide |
| TickDelivery.DeltaReaches | src/subscriptions.rs:698-778 | a delta of the batch reaches a client exactly if one of its subscriptions matches |
| TickDelivery.FrameSimulatesBatch | src/subscriptions.rs:698-778 | a delivered frame takes the client's copy where the raw deltas that reach it would |
| TickCoalescing.StepKeepsInvariant | src/subscriptions.rs:292-322 | publishing, listing, taking one and delivering keep: pending over the batch over the delivered rows is every published delta in order, and the batch holds no row twice |
| TickCoalescing.NothingIsLost | src/subscriptions.rs:292-322 | in every state of every interleaving, pending over the batch over the delivered rows is every published delta in order |
| TickCoalescing.QuietMeansCaughtUp | src/subscriptions.rs:544-561 | with nothing pending and nothing in flight the subscriber has every published row |
| TickCoalescing.StagingIsExact | src/subscriptions.rs:544-561 | replacing a staged delta by the next one acts like applying both if and only if the next says everything about its row, or nothing is staged for the row, or what is staged would not change it |
| TickCoalescing.CopyIsDelivered | src/subscriptions.rs:698-778 | in every interleaving the copy built from the patched frames of the flusher has the delivered rows, if no update drops a field |
| TickCoalescing.QuietCopyIsCaughtUp | src/subscriptions.rs:292-322 | with nothing pending and nothing in flight that copy has every published row |
| Commit.CommitBatch | src/table/mod.rs:1519-1616 | writes the staged deltas up to the first error and hands on what was stored; an unknown operation undoes them in reverse order, other errors do not |
| Commit.CommittedAreFull | src/table/mod.rs:1524-1593 | every delta handed on carries its full row or is a deletion, so it may be staged for a tick |
| Commit.LastTouchDecides | src/table/mod.rs:1524-1593 | after a batch that went through, every row is as the last staged delta for it left it, and untouched rows are as before |
| Commit.AdditionsAddUp | src/table/mod.rs:1550-1578 | over any batch that only adds to a counter, other rows changing as they will, the counter grows by the sum of the amounts in 32 bits |
| Commit.AtomicIff | src/table/mod.rs:1519-1616 | a failing batch leaves every store as it was if and only if no delta but the first can return on the spot, that is lacks data or adds to a row that is no counter or unknown to the batch, unless one before it always stops the batch |
| QueryParser.SplitOnKeyword | src/subscriptions.rs:1116-1138 | the loop finds the first keyword outside all parentheses |
| QueryText.FindFirst | src/subscriptions.rs:1001-1009 | a keyword between spaces is found at the first place where it stands, in any case |
| QueryText.RFindLast | src/subscriptions.rs:1031-1040 | searched from the end, it is found at the last place where it stands |
| QueryText.SplitClear | src/subscriptions.rs:1116-1138 | a text is split at the first keyword outside parentheses into what stands before and after it |
| QueryRoundTrip.ParseFromComparator | src/subscriptions.rs:1145-1171 | each of the eight comparators is recognised as itself although some contain others |
| QueryRoundTrip.ParseCommaText | src/subscriptions.rs:1100-1110 | the literals of a list come back in order |
| QueryRoundTrip.ParseAnds | src/subscriptions.rs:1081-1113 | a printed conjunction parses to its right-nested tree |
| QueryRoundTrip.ParseOrs | src/subscriptions.rs:1081-1113 | a printed OR of ANDs parses to its tree: AND binds tighter |
| QueryRoundTrip.OrderClause | src/subscriptions.rs:1048-1075 | the ORDER BY clause gives back field and direction and leaves the text before it |
| QueryRoundTrip.LimitClause | src/subscriptions.rs:1031-1040 | the LIMIT clause gives back the number and leaves the text before it |
| QueryRoundTrip.RoundTrip | src/subscriptions.rs:993-1193 | printing any well-formed query with any spelling of its keywords and parsing it gives its meaning |
| QueryRoundTrip.OrsEvaluate | src/subscriptions.rs:849-865 | the parsed condition holds of a row exactly if all conditions of one alternative do |
| QueryRoundTrip.ParenthesesAreNotGrouping | src/subscriptions.rs:1081-1193 | a well-formed condition put in parentheses never parses to its meaning: the parenthesis ends up in a field name |
| QueryRoundTrip.ParenthesizedOperand | src/subscriptions.rs:1081-1193 | neither does it as the left operand of AND |
| QueryRoundTrip.ParenthesizedRight | src/subscriptions.rs:1081-1193 | nor as the right operand |
| FilterPrinter.LiteralReads | src/subscriptions.rs:1173-1193 | the text of a 64-bit integer, a boolean or any quoted string is read as that value |
| FilterPrinter.FilterRoundTrip | src/subscriptions.rs:993-1193 | printing a filter and parsing the text gives the same filter |
| FilterPrinter.LoneQuoteCrashes | src/subscriptions.rs:1173-1193 | exactly the texts that trim to one quote character crash the parser |
| FilterPrinter.LoneQuoteQueryCrashes | src/subscriptions.rs:993-1193 | a query with WHERE field = and one quote character crashes the parser, for every plain table and field |
| TenantNames.LogicalUndoesPhysical | src/tenant.rs:48-61 | the logical name comes back exactly from ids without a colon |
| TenantNames.PhysicalIsInjective | src/tenant.rs:48-50 | for colon-free ids a physical name determines tenant and logical name |
| TenantNames.BelongsIsPhysical | src/tenant.rs:64-70 | a table belongs to a tenant exactly if it is a physical name of that tenant |
| TenantNames.BelongsToOne | src/tenant.rs:64-70 | a tenant's table belongs to no other colon-free tenant |
| TenantNames.ColonIsAmbiguous | src/tenant.rs:48-70 | with a colon in an id two tenants share tables |
| TenantNames.GeneratedIdsAreColonFree | src/tenant.rs:334-353 | generated ids consist of letters, digits and dashes, whatever the name |
| Tenants.StoredReads | src/tenant.rs:159-200 | a definition written as a row, with the key the store injects, is read back unchanged |
| Tenants.TenantRegistry.Rehydrate | src/tenant.rs:120-132 | in whatever order the rows are visited each readable row leaves its entries and nothing else does; if ids and keys are distinct the caches are determined |
| Tenants.TenantRegistry.Create | src/tenant.rs:159-200 | refuses empty, colon and taken names without a change, else adds the definition to table and caches |
| Tenants.TenantRegistry.Delete | src/tenant.rs:204-233 | empties exactly the tenant's tables, drops its definition, caches and bucket, and reports each dropped row once |
| Tenants.CreateMirrors | src/tenant.rs:159-200 | after a creation the caches equal the table's content if and only if the generated id and key are unused |
| Tenants.DeleteMirrors | src/tenant.rs:204-233 | after a deletion they do |
| Tenants.RunMirrors | src/tenant.rs:159-233 | after any run of creations and deletions with fresh ids and keys they do, and names are distinct |
| Tenants.RehydrationAgrees | src/tenant.rs:120-132 | rehydrating then changes nothing |
| Tenants.DeleteIsolates | src/tenant.rs:204-233 | no row of another tenant or of an ordinary table is lost |
| Tenants.CollisionKeepsOldKey | src/tenant.rs:159-200 | after an id collision the old key opens the new tenant |
| Tenants.TokensResolve | src/tenant.rs:140-143 | a token resolves to a tenant exactly if the part before its colon is that tenant's key |
| Tenants.KeyOpensUntilDeleted | src/tenant.rs:140-143 | a tenant's key works with and without a role until the tenant is deleted |
| Tenants.TenantRegistry.CheckRate | src/tenant.rs:236-265 | unknown and unlimited tenants are always allowed; otherwise the bucket decides and is charged |
| TenantRate.BucketStaysInRange | src/tenant.rs:236-265 | over every run the bucket stays between empty and the limit |
| TenantRate.WindowBound | src/tenant.rs:236-265 | in any window the allowed calls are at most the limit plus the limit times the length of the window |
| TenantRate.BurstOfTheLimit | src/tenant.rs:236-265 | a full bucket lets exactly the limit through at one instant, so the bound is reached |
| TenantRate.SpacedCallsAreAllowed | src/tenant.rs:236-265 | the first call, and any call 1/limit after the one before it, is allowed |
| Schema.ValidateAndFill | src/schema.rs:274-352 | fills in the order of the columns, then checks every field; the first filling error or some type error is reported |
| Schema.NormalisingIsIdempotent | src/schema.rs:274-352 | normalising a normalised row gives it back |
| Schema.NormalisedRow | src/schema.rs:274-352 | every present typed column is acceptable, required ones are there, other fields are untouched and values change only by the cast |
| Schema.PassesIffColumnsPass | src/schema.rs:85-114 | with distinct column names a row passes exactly if each column has an acceptable or castable value or default, or may be absent |
| Migrations.ChangeTable | src/migrations.rs:247-320 | each row of the table is changed as the step says, the others are untouched |
| Migrations.ApplyMigration | src/migrations.rs:199-244 | every table is as the steps before the first bad one leave it, and that step is reported |
| Migrations.ApplyMigrations | src/migrations.rs:92-153 | every table, the records and the number applied or the obstacle are as the run over the list says |
| MigrationRuns.PartThenWholeIsWhole | src/migrations.rs:92-153 | a part of the list and later the whole list give the same rows, records and count as the whole list once, at whatever times |
| MigrationRuns.FurtherRunAppliesNone | src/migrations.rs:92-153 | a further run changes nothing |
| MigrationRuns.ChangeIsIdempotent | src/migrations.rs:40-44 | each operation done twice to a stored row is done once, also on fields the engine injects |
| MigrationRuns.FailedFileIsRetried | src/migrations.rs:92-153 | a failed file leaves its first steps in effect and no record |
| MigrationRuns.RetryOverwrites | src/migrations.rs:199-320 | a retried file can overwrite what its first attempt moved |
| MigrationRetry.EffectIff | src/migrations.rs:247-320 | two lists of steps do the same to every stored row if and only if every field takes its value from the same places after both |
| MigrationRetry.RetryIsHarmless | src/migrations.rs:199-320 | doing the steps of a file again changes no stored row, whatever the rows, if and only if every field the file names takes its value from the same places after one run and after two |
| MigrationRetry.RetriedFileIsHarmless | src/migrations.rs:92-153 | retrying a file that fails half-way changes nothing on any store if and only if that holds for every table |
| MigrationRetry.RenameThenAddIsUnsafe | src/migrations.rs:247-320 | rename a to b, add a: not safe to retry |
| MigrationRetry.RemoveThenRenameIsUnsafe | src/migrations.rs:247-320 | remove b, rename a to b: not safe to retry |

## Left out

- OrderedSnapshot.DeliveredIsBest: is about rows without a collision; NeighboursDecide says that otherwise no sort by comparison is safe, so which order comes out then, or whether the sort panics, is not promised.
- SnapshotIndex.SnapshotIsExact: its second half asks for indexes without stale keys, which every operation but eviction keeps; SafeIsScanned covers the others.
- Commit.CommitBatch: is on values, not in place: locks, versions of optimistic transactions, shard filters and the indexes, which the rollback does not maintain, are not modelled; additions wrap around as in a release build.
- TickCoalescing.CopyIsDelivered: is about a subscriber with one subscription that matches every row and no lost frame.
- StreamingTopK.CappedShowsUncapped: is about streams without removals; StepIsExact covers any single step.
- Schema.NormalisedRow: the cast of an integer to a double is a parameter, so its value is not stated.
- FilterPrinter.LiteralReads: doubles are left to the double parser.
- QueryRoundTrip.RoundTrip: literals with keywords, operators or parentheses inside are not printed, nor is a table that starts with the word subscribe printed without the prefix.
- Tenants.TenantRegistry.Create: the lower-case name, the random texts and the time are parameters; a definition row that is a JSON array counts as unreadable.
- TenantRate.WindowBound: arithmetic is exact, rounding of the token count is not modelled.
- Ttl.TtlManager.CollectExpired: is atomic; a renewal between its check and its removal is not modelled.
- Wrap-around of `now + ttl` and of `rank + count`.
- Blobs in the field `inventory`, shard filters and multi-version reads.
- Lobby tables whose own name is again a lobby name.
- The encoders, compression and channels; a snapshot that stops when the send buffer is full.
- NaN scores, leaderboard windows (monthly is an approximation), a player who is on the boards of two regions and takes two places of the merge.
- Disk layout, checksums and file system errors; a snapshot file that cannot be read; the numbering in `src/server.rs`, which restarts at the last used number.
- Point-in-time restore, row-level security, presence, authentication, metrics and the HTTP and WebSocket handlers.
- Reading the migrations directory and parsing schema and migration files.
