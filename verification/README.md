# Verified model of the WAF proxy's stateful cores

A Dafny 4.11 project that models the parts of the proxy whose correctness depends on history, interleaving
or recursion, and proves what they are for. `dafny verify dfyconfig.toml` checks all of it.

| component | files | main results |
|---|---|---|
| Dashboard connector replication | `OwiModel`, `OwiStore`, `OwiDurable`, `OwiPages`, `OwiRuns`, `OwiTheorems`, `OwiProgress` | every reader holds the source state at its watermark, in every run with crashes, failed saves and trims; numbers are never reused; who asks in time is served, and bootstraps and followers come to their end |
| Connector limiter and export plane | `OwiLimiter`, `OwiLimiterRuns`, `ExportPlane` | who is admitted, exactly; advised waits suffice and are needed; every detection is on its way, journaled or marked, and exactly when a loss is reported |
| GraphQL analysis | `GraphqlDocument`, `GraphqlAnalysis`, `GraphqlMeasures`, `GraphqlRewrites` | one walk measures the fully expanded tree, and what the measures mean; inlining and reordering are invisible |
| GraphQL front end | `GraphqlLexer`, `GraphqlWriting`, `GraphqlParser`, `GraphqlPrinter`, `GraphqlRoundTrip`, `GraphqlAccepts`, `GraphqlDocumentParser`, `GraphqlSource` | the accepted language exactly, and the round trip from text in any spelling |
| GraphQL policies | `GraphqlPolicies` | enforcement only after review, with nothing changed since; the runtime is a unique rebuild, with the strictest policy as fallback |
| Abuse limiter | `TokenBuckets`, `TokenBucketTheorems` | who is let in over whole runs, exactly; forgetting buckets is invisible |
| Applying a configuration | `Listeners`, `ManagedIps`, `ApplyTransaction` | all or nothing for every choice of failing step; sockets are made before they are broken, and never bound under the frontend |
| HA push | `HaSync` | one send in flight, and the last accepted configuration is the last sent |
| API contracts | `FlatSchema`, `FlatSchemaRoundTrip` | which flat field lists survive export and import |
| Identity policies | `IdentityPolicies` | what an enforcing policy means and trusts is what was promoted |
| Dashboard reader | `ReaderStore`, `ReaderPages`, `ReaderServer` | journal and memory agree; pages have no gap or repeat |
| Object-level evidence | `BolaEvidence`, `BolaStore` | every candidate is justified by recorded observations, and evidence gives a candidate; caps hold |

Each component has a specification on values, the source's loops and updates as methods of a class proved
against it, and theorems about whole runs. External actions (saving a file, binding a socket, running `ip`,
the TLS frontend's answer) succeed or fail freely. Time is an explicit argument in whole seconds, real
seconds for the limiters.

Where the code does less than its comments or names suggest, the model follows the code, and a lemma shows
the case with the condition under which the expected property does hold:

- An emptied connector journal answers with the old cursor and no RESET; "no more rows" means caught up
  exactly when the journal has rows or the cursor was current (`NoMoreRowsMeansCurrentExactly`, `StaleAnswerIsServed`).
- A detection lost under a standing gap mark is reported only for what is left of that mark's thirty days, and
  not at all once they are over (`LateLossIsCoveredShortly`, `ExpiredMarksReportNothing`; when it is reported, and
  for how long: `LossIsReportedExactly`). What a producer holds when the drain ends is lost unmarked
  (`LateProducersAreLost`, and only that: `DrainAccountsExactly`).
- The limit on operations is not looked at after a shorthand operation (`ShorthandsAreNotCounted`, with the
  exact rule in `DocumentRound`); an unterminated string passes when it is
  empty or ends in a backslash or an escaped character (`UnterminatedStringsPassExactly`).
- The eviction after a full shard's pruning never finds anything (`NothingLeftToEvict`).
- A failed apply can cost the host an address it had adopted (`AdoptionIsNotUndone`): it is sure not to exactly
  when none is at risk (`KeepsExactly`), and once all were reached it costs exactly those (`BackAgain`). When nothing ran before, the fallback configuration is the new one.
- Lists compared through NUL-joined text are confused by NULs inside items (`JoinConfusesNuls`; which lists are,
  `ConfusedExactly`; none without NULs, `JoinIsInjective`).
- After a failed sync the dashboard reader gives a number out again, and the journal is refused from then on
  (`FailedSyncThenAppend`).
- A relation remembers the tenant of its first observation only (`TenantOfLaterSightsIsForgotten`; as long as no
  other was merged, that is the tenant of all: `OneTenantExactly`).
- Export writes no references and trims paths, and import sorts values: what comes back is exactly what has none,
  no blanks around its path and its values in order (`ComesBackExactly`).

## Model

| member | source | states |
|---|---|---|
| OwiModel.LeadingExpiredUnique | dashboard_connector_store.go:281-306 | The rows a trim removes are the longest expired front of the journal: any count with that property is the one used, so an unexpired row stops the scan and nothing behind it goes. |
| OwiModel.DistinctUpserts | dashboard_connector_store.go:330-379 | Current records with distinct ids, in any order, replay to the map that holds exactly them: what makes a frozen snapshot a state. |
| OwiModel.FoldEntries | dashboard_connector_store.go:169-216 | In a numbered history the replayed state holds under each id the UPSERT last given to it. |
| OwiModel.MirrorsTells | dashboard_connector_store.go:147-181 | A current map that mirrors what was asked for has its ids and no others, and under each the observed time, update time, payload, provenance facts and origin event of the last record asked for. |
| OwiModel.TellsMirrors | dashboard_connector_store.go:147-181 | And the other way round: a map that tells all that, field by field, needs no change. |
| OwiModel.CleanedExactly | dashboard_connector_store.go:273-314 | Cleaning keeps of each journal everything from the first row on that is not more than thirty days old for detections, seven for the rest, or has no readable time; every unexpired snapshot; and a gap until it is thirty days old. |
| OwiStore.DurableWhenServing | dashboard_connector_store.go:112-117 | Whenever saving has not just failed, the file holds the counters and current maps that memory holds. |
| OwiStore.PersistedInv | dashboard_connector_store.go:112-117 | A rewrite of the state file, successful or not, restores the invariant: either the file says everything numbered, or the failure flag is up. |
| OwiStore.CleanedCore | dashboard_connector_store.go:273-314 | Expiring snapshots, trimming journals and lifting the gap keep lanes, snapshots and the detection byte count right. |
| OwiStore.SyncedLaneOk | dashboard_connector_store.go:169-216 | A kind brought to the desired records keeps counter, journal, current map and history in step, and then says exactly what was desired. |
| OwiStore.AppendedCore | dashboard_connector_store.go:255-271 | A stored detection is the next number, the last journal row and part of the byte count. |
| OwiStore.FrozenReplays | dashboard_connector_store.go:330-379 | The values of a current map sorted by sequence replay to that map: the snapshot reproduces the state at its watermark. |
| OwiStore.FrozenIsOk | dashboard_connector_store.go:330-379 | A snapshot frozen from a lane in order describes the history up to its watermark; for detections, the rows retained then. |
| OwiStore.BootedCore | dashboard_connector_store.go:52-94 | A process started on any file the protocol left behind begins with the invariant, knowing only what the file says. |
| OwiDurable.DurableStore.Open | dashboard_connector_store.go:52-94 | Opening a state file gives exactly the booted store saved, or no store when the first save fails. |
| OwiDurable.DurableStore.Persist | dashboard_connector_store.go:112-117 | The file is replaced as a whole or left alone, and the failure flag says which. |
| OwiDurable.DurableStore.ExpireSnapshots | dashboard_connector_store.go:275-280 | Exactly the snapshots whose expiry has passed go, and the answer says whether any did. |
| OwiDurable.DurableStore.TrimJournal | dashboard_connector_store.go:281-306 | A kind's journal loses exactly its expired front, and the detection byte count exactly the bytes of those rows. |
| OwiDurable.DurableStore.CleanState | dashboard_connector_store.go:273-314 | Cleanup equals its specification on the whole state, and reports a change exactly when something moved. |
| OwiDurable.DurableStore.SyncStateKind | dashboard_connector_store.go:169-216 | Each missing or differing record is numbered once in order and each unwanted one tombstoned. The current records are then exactly those asked for, each with the observed time, update time, payload and, but for the origin revision, the provenance of the last one asked for under its id; a change is reported exactly when something was numbered. |
| OwiDurable.DurableStore.SyncStateBatch | dashboard_connector_store.go:235-249 | All kinds are synced, trimmed, and saved if anything moved or the last save failed. |
| OwiDurable.DurableStore.AppendDetection | dashboard_connector_store.go:255-271 | A detection is stored and saved exactly when the cleaned journal has room for its row and its bytes; the last row then is the candidate with the next number, and otherwise only the cleanup happens and the caller is told. |
| OwiDurable.DurableStore.MarkDetectionDrop | dashboard_connector_store.go:126-135 | A drop is counted, a standing mark keeps its first time, and the state is saved. |
| OwiDurable.DurableStore.CloseClean | dashboard_connector_store.go:119-124 | The clean-shutdown flag goes to the file with everything else, if the save succeeds. |
| OwiDurable.DurableStore.NewSnapshot | dashboard_connector_store.go:330-379 | A snapshot is given exactly when saving works before and after, an id is at hand and no bound is passed; if only the save fails the caller gets none, though memory keeps it. |
| OwiDurable.DurableStore.GetSnapshot | dashboard_connector_store.go:384-402 | A lookup answers from the cleaned pool and saves what the cleaning removed. |
| OwiDurable.DurableStore.JournalAfter | dashboard_connector_store.go:408-435 | The rows after a watermark, the counter and the first retained number, all from the cleaned journal, refused while saving fails. |
| OwiDurable.DurableStore.SortedValues | dashboard_connector_store.go:355-368 | The current records in sequence order, each once, with nothing else. |
| OwiPages.Connector.ServePage | dashboard_connector_http.go:562-655 | Serving a page is one of the protocol's moves: every branch, refusal, cursor and record of the answer is as specified, and the bounds on a new snapshot are those of the store. |
| OwiRuns.StoreStepKeeps | dashboard_connector_store.go:52-94 | Syncs, detections, drop marks, closes, crashes and restarts each keep the invariant and never unsay what the file has numbered. |
| OwiRuns.ServedKeeps | dashboard_connector_http.go:562-655 | Serving any reader keeps the store's invariant and its past. |
| OwiRuns.TailFollows | dashboard_connector_store.go:408-435 | The rows after a watermark are the history after it, or the first retained number shows that some of it was trimmed. |
| OwiRuns.PageFollows | dashboard_connector_http.go:592-621 | An incremental page carries the next records of the history and its cursor stands right behind them. |
| OwiRuns.ServedClientOk | dashboard_connector_http.go:562-655 | What the asking reader holds after a page is still exactly the source state at its cursor, snapshot pages included. |
| OwiRuns.StepKeeps | dashboard_connector_http.go:562-655 | Every step of the whole system keeps the store's invariant and every reader's. |
| OwiRuns.ReplicationIsSafe | dashboard_connector_http.go:562-655 | In every state of every run, each reader holds the source state as of its watermark and nothing in the file is ever renumbered. |
| OwiTheorems.BeginningOk | dashboard_connector_store.go:52-94 | A first start with no file and readers with no cursor satisfies the invariant. |
| OwiTheorems.ReaderHoldsItsWatermark | dashboard_connector_http.go:562-655 | For every interleaving of writers, trims, failed saves, crashes and lost responses, a bootstrapped reader holds exactly the state as of its watermark; for detections, every record after those no longer retained when its bootstrap began. |
| OwiTheorems.NoMoreRowsMeansCurrentExactly | dashboard_connector_http.go:592-621 | In every run, a reader told that there are no more rows holds the current state exactly when the journal has rows or the reader was current before. |
| OwiTheorems.SequencesAreNeverReused | dashboard_connector_store.go:52-117 | A number a reader has seen names the same record in every later state, across crashes and restarts. |
| OwiTheorems.JournalShape | dashboard_connector_store.go:169-314 | Journals carry consecutive numbers ending at the counter, and the detection byte count is the sum of the retained rows' sizes. |
| OwiTheorems.ResetExactly | dashboard_connector_http.go:592-599 | With rows in the journal, RESET is answered exactly when a record after the watermark was trimmed. |
| OwiTheorems.CaughtUpExactly | dashboard_connector_http.go:592-621 | No more rows means caught up exactly when the journal has rows or the cursor was current already; an emptied journal answers with the old cursor. |
| OwiTheorems.CurrentAtTheEnd | dashboard_connector_http.go:592-621 | A reader at the current sequence number holds the current map, or all detections since its start. |
| OwiTheorems.StaleAnswerIsServed | dashboard_connector_http.go:597-619 | Whenever a kind's journal has expired as a whole, the next answer to a reader behind it is that there is no more, without RESET: a step of the protocol that leaves it behind. |
| OwiTheorems.SyncIsQuiet | dashboard_connector_store.go:169-216 | Syncing records of which every field is already said numbers nothing. |
| OwiTheorems.CaughtUpReaderSeesDesired | dashboard_connector_http.go:562-655 | A caught-up reader holds exactly the ids the last sync asked for, each with the observed time, update time, payload and, but for the origin revision, the provenance of the last record asked for under it. |
| OwiProgress.SnapshotsLastTheirTime | dashboard_connector_store.go:273-402 | Whatever writers, readers, failed saves and crashes do, a saved snapshot is in memory and file until its time is up. |
| OwiProgress.FirstRequestIsAnswered | dashboard_connector_http.go:562-575 | A reader without a cursor, while saving works and the snapshot is within bounds, gets the first rows of a snapshot that freezes what the store holds, as many as it asked for or as there are, and a cursor to the rest. |
| OwiProgress.SnapshotRequestIsAnswered | dashboard_connector_http.go:581-642 | A reader that shows its own unexpired snapshot cursor, while the snapshot is unexpired and saving works, gets the next rows, as many as it asked for or as there are, and a cursor to the rest or to the watermark. |
| OwiProgress.BootstrapsFinish | dashboard_connector_http.go:562-655 | In every run that favours a reader within its snapshot's time, each of its requests has taken it a full page further, until it has had the whole snapshot and a cursor that goes on at its watermark. |
| OwiProgress.BootstrapFromNothing | dashboard_connector_http.go:562-655 | A reader that starts without a cursor and asks as often as its snapshot has pages, within a day, ends up with the whole of what was current when it started. |
| OwiProgress.IncrementalRequestIsAnswered | dashboard_connector_http.go:592-621 | A reader that shows its own unexpired incremental cursor while saving works gets the next records of the history, as many as it asked for or as there are; RESET exactly when one of them is no longer in a journal that has rows; nothing from an empty one. |
| OwiProgress.FollowersCatchUp | dashboard_connector_http.go:592-621 | In every run, a reader that asks in time, with none of the rows it lacks trimmed, gains a full page with each request until it has all that had been saved when it began, and is never sent back. |
| OwiProgress.OnlyTheHolderIsServed | dashboard_connector_http.go:576-596 | A page goes only to the reader, resource, source and page size its cursor was issued for, before it expires, and shows only that reader's own unexpired snapshot; it never has more rows than asked for. |
| OwiProgress.CoverageIsTold | dashboard_connector_http.go:619-642 | A page says GAP exactly for detections while a mark less than thirty days old stands. |
| OwiProgress.RefusalsMean | dashboard_connector_http.go:569-596 | A cursor not one's own or expired is reset, a forged one or an unknown mode invalid, and failing saves answer temporarily unavailable to everybody else. |
| OwiLimiter.RetryAfter | dashboard_connector_http.go:296-301 | The advised wait is a whole number of seconds, at least one, and no shorter than the missing tokens take to come back. |
| OwiLimiter.WaitingIsEnough | dashboard_connector_http.go:283-302 | Waiting the advised time without another acquire is enough: the token is then there, whatever the global load. |
| OwiLimiterRuns.WaitingIsNeeded | dashboard_connector_http.go:296-301 | Waiting a second less than advised is not enough. |
| OwiLimiterRuns.PotsTell | dashboard_connector_http.go:283-310 | In every run a principal's tokens are what flowed in since they were last full, less its admissions, and no more than that since any other time. |
| OwiLimiterRuns.AdmittedExactly | dashboard_connector_http.go:283-310 | In every run a principal finds a token if and only if, since any t1, it was admitted at most burst - 1 + (now - t1) * rate times; with one it is admitted if and only if it and all together hold fewer admissions than their limits. |
| OwiLimiterRuns.RunCounts | dashboard_connector_http.go:283-319 | In every run the counts are those of the admissions not yet released, of each principal and of all. |
| OwiLimiter.Limiter.Acquire | dashboard_connector_http.go:283-310 | A refused request changes nothing but the refill, an admitted one costs a token and a place, and the counts stay sums within their maxima; it is the step that the runs speak of. |
| OwiLimiter.Limiter.Release | dashboard_connector_http.go:310-319 | A release lowers its principal's and the global count once; a second call changes nothing. |
| OwiLimiter.SumOfUpdate | dashboard_connector_http.go:283-319 | Changing one principal's active count changes the sum of all by exactly as much. |
| ExportPlane.TheStoreMovesSo | dashboard_connector_store.go:126-135 | The gap moves used here are the durable store's own: first mark kept, lifted after thirty days, made anew after an unclean stop, reported as GAP while it stands. |
| ExportPlane.StepKeepsInv | dashboard_connector_export.go:50-106 | Every step of producers, worker, crash and restart keeps each offered detection accounted for. |
| ExportPlane.NoSilentLoss | dashboard_connector_export.go:50-106 | Every offered detection is still on its way, queued, an unreported drop, journaled, or covered by a mark; as long as thirty days since that mark are not over, the coverage is GAP. |
| ExportPlane.LossIsReportedExactly | dashboard_connector_store.go:126-135 | A marked loss is reported at once exactly when no mark thirty days old was standing, and for thirty days, through crashes and restarts, exactly when none stood or one of that moment. |
| ExportPlane.ExpiredMarksReportNothing | dashboard_connector_store.go:131-133 | Drops counted under an expired mark that is not yet lifted are reported by nothing. |
| ExportPlane.EveryRunIsCovered | dashboard_connector_export.go:50-106 | Every state a new plane can come to meets the requirements of these theorems. |
| ExportPlane.DrainAccountsExactly | dashboard_connector_export.go:50-61 | At the end of a drain every offered detection is journaled or marked exactly when no producer is between its check and its push. |
| ExportPlane.NothingAtRisk | dashboard_connector_export.go:107-112 | After a drain without concurrent producers, and after any restart, every offered detection is journaled or covered. |
| ExportPlane.Drain | dashboard_connector_export.go:87-101 | The drain loop is the run that journals each queued detection, marks it when that fails, accounts for the drops and stops; nothing offered is then at risk. |
| ExportPlane.NothingLostNeedlessly | dashboard_connector_export.go:50-106 | As long as appends succeed and nothing crashes, a plane offered no more detections than its queue holds drops none, marks none and reports no gap; after a drain it has journaled all. |
| ExportPlane.LateProducersAreLost | dashboard_connector_export.go:50-61 | What a producer holds when the drain ends is neither journaled nor marked, whatever follows, until a new process starts; nor by that one if the shutdown was saved as clean. |
| ExportPlane.LateLossIsCoveredShortly | dashboard_connector_store.go:131-133 | Because a standing mark keeps its first time, a loss 29 days into it is reported for one more day only. |
| GraphqlAnalysis.WalkMeasures | graphql_api8.go:1661-1712 | The walk succeeds exactly when every spread expands and the expanded tree is within depth 64, complexity 10000 and 2048 paths, and its accumulators then have grown by exactly that tree's measures. |
| GraphqlAnalysis.FieldMeasures | graphql_api8.go:1692-1710 | One field with its children, walked, measures as one node of the expanded tree, one level deeper inside. |
| GraphqlAnalysis.MeasureConcat | graphql_api8.go:1666-1711 | Measures of selections one after the other are the joined measures of each. |
| GraphqlAnalysis.Analyzer.NoteField | graphql_api8.go:1692-1705 | Counting a field, its path, its depth and introspection, with the complexity and path limits. |
| GraphqlAnalysis.Analyzer.WalkSelections | graphql_api8.go:1661-1712 | The recursive walk, which ends on every document including cyclic ones, computes the specified walk. |
| GraphqlAnalysis.Analyze | graphql_api8.go:1635-1738 | The analysis of the operation meant, the first of the name asked for or without a name the only one, is the measures of its fully expanded tree, though no tree is built; its name, type and variables are that operation's. Every other case is an error. |
| GraphqlAnalysis.FindOperation | graphql_api8.go:1641-1650 | None exactly when no operation has the name; else the first that has it. |
| GraphqlMeasures.AnalysisReports | graphql_api8.go:1635-1738 | An analysis reports exactly the operation's fields with all fragments replaced: one dotted path for each chain of fields, the longest chain as depth, the number of fields as complexity, and introspection when a chain ends in __schema or __type. |
| GraphqlMeasures.RefusedExactly | graphql_api8.go:1635-1712 | An analysis is refused exactly when no operation is meant, a spread is unknown or cyclic, there are over 10000 fields or 2048 paths, or sixty-four fields with selection sets lie one in the other. |
| GraphqlMeasures.ChainsAreMeasured | graphql_api8.go:1692-1710 | Every chain of fields is measured: its path, its length and an introspection field at its end. |
| GraphqlMeasures.ChainOfPath | graphql_api8.go:1692-1710 | Every path reported is that of a chain of fields. |
| GraphqlRewrites.ExpandsExactly | graphql_api8.go:1666-1681 | An operation is refused for its spreads exactly when some chain of them reaches an undefined fragment or returns to one of its own. |
| GraphqlRewrites.SpreadMeansItsContents | graphql_api8.go:1666-1690 | A spread expands as its fragment's selections written in its place, or neither does. |
| GraphqlRewrites.OrderIsIrrelevant | graphql_api8.go:1666-1711 | Reordering a selection set leaves all measures alone. |
| GraphqlRewrites.RewritingKeepsTotals | graphql_api8.go:1661-1712 | Inlining fragments and reordering selections, anywhere in a selection set and at any depth, leaves all measures alone. |
| GraphqlRewrites.RewritingKeepsTheAnalysis | graphql_api8.go:1635-1738 | Two documents whose operations differ by inlined fragments and reordered selections have the same analysis or the same refusal. |
| GraphqlParser.SdlArgumentsExactly | graphql_api8.go:1130-1144 | Skipping a schema argument list stops exactly behind the matching bracket and fails exactly when there is none. |
| GraphqlParser.SdlDefinitionExactly | graphql_api8.go:1146-1168 | Skipping an unsupported definition goes to the first definition keyword outside any bracket, or to the end, and no further. |
| GraphqlRoundTrip.LiteralRound | graphql_api8.go:1510-1548 | Parsing a printed value consumes exactly its tokens. |
| GraphqlRoundTrip.VariablesRound | graphql_api8.go:1422-1454 | Parsing printed variable definitions gives their names and type texts, the last one winning, within the limit of 256 names. |
| GraphqlRoundTrip.SelectionsRound | graphql_api8.go:1550-1568 | Parsing a printed selection set gives its selections in order and leaves what follows. |
| GraphqlRoundTrip.SelectionRound | graphql_api8.go:1570-1633 | Parsing a printed selection gives its field, spread or inline fragment, with alias, arguments, directives and type condition dropped. |
| GraphqlRoundTrip.DefinitionsRound | graphql_api8.go:1349-1420 | Printed definitions parse exactly when they can be admitted one after the other, and give the document they stand for. |
| GraphqlRoundTrip.DocumentRound | graphql_api8.go:1349-1420 | Parsing a printed document gives back what is kept of it with only the end left; it fails exactly without an operation or when a definition is not admitted. |
| GraphqlRoundTrip.WithinLimitsThroughout | graphql_api8.go:1412-1414 | Distinct fragments and final counts within the limits are enough for every definition to be admitted. |
| GraphqlRoundTrip.ShorthandsAreNotCounted | graphql_api8.go:1356-1363 | The limit of 128 operations does not bind shorthand operations: any number above it parses. |
| GraphqlAccepts.LiteralSound | graphql_api8.go:1510-1548 | A value accepted from lexer tokens is the printing of some well-formed value. |
| GraphqlAccepts.SelectionSound | graphql_api8.go:1570-1633 | A selection accepted is the printing of some well-formed selection, and the parser's answer is what is kept of it. |
| GraphqlAccepts.DefinitionsSound | graphql_api8.go:1349-1420 | Definitions accepted are the printing of well-formed, admitted definitions. |
| GraphqlAccepts.AcceptsExactly | graphql_api8.go:1349-1420 | On lexer tokens the parser accepts exactly the printings of documents, and answers with what it keeps of them. |
| GraphqlDocumentParser.DocumentParser.SkipValue | graphql_api8.go:1510-1548 | The value skipper moves the position as the value grammar says, on every input, and ends. |
| GraphqlDocumentParser.DocumentParser.SkipMembers | graphql_api8.go:1493-1508 | The loop of argument lists and object values. |
| GraphqlDocumentParser.DocumentParser.SkipDirectives | graphql_api8.go:1480-1491 | The directive loop. |
| GraphqlDocumentParser.DocumentParser.ParseTypeRef | graphql_api8.go:1456-1478 | The text of a type reference. |
| GraphqlDocumentParser.DocumentParser.ParseVariableDefinitions | graphql_api8.go:1422-1454 | The variable loop with its limit. |
| GraphqlDocumentParser.DocumentParser.ParseSelectionSet | graphql_api8.go:1550-1568 | The selection loop with its limit of 2048. |
| GraphqlDocumentParser.DocumentParser.ParseSelection | graphql_api8.go:1570-1633 | Spread, inline fragment or field, by the token that follows. |
| GraphqlDocumentParser.DocumentParser.Parse | graphql_api8.go:1349-1420 | The definition loop, with the limits looked at after every keyword definition only. |
| GraphqlDocumentParser.DocumentParser.SkipSdlArguments | graphql_api8.go:1130-1144 | The loop that skips schema arguments. |
| GraphqlDocumentParser.DocumentParser.SkipSdlDefinition | graphql_api8.go:1146-1168 | The loop that skips an unsupported schema definition. |
| GraphqlLexer.LexerMakesTokens | graphql_api8.go:1189-1287 | Every token has the text its kind allows, and the one end mark stands last: what the parser relies on. |
| GraphqlLexer.LexingUndoesRendering | graphql_api8.go:1189-1287 | Any tokens written out with spaces lex back to themselves, up to 8192 of them and no further. |
| GraphqlLexer.StringContentsVanish | graphql_api8.go:1236-1262 | However long a plain string is, nothing of it is left but one token. |
| GraphqlLexer.StringsAreReadRight | graphql_api8.go:1236-1262 | A string ends at its first unescaped quote, is refused at an unescaped line end before that, and without either passes exactly when it is empty or ends in a backslash or an escaped character. |
| GraphqlLexer.UnterminatedStringsPassExactly | graphql_api8.go:1236-1262 | An unterminated string at the end of the text is taken for a token in exactly those cases. |
| GraphqlLexer.UnterminatedStringsPass | graphql_api8.go:1236-1262 | Two such inputs: a lone quote, and an escaped quote at the end. |
| GraphqlLexer.LexSource | graphql_api8.go:1189-1287 | The lexer's loop computes the specified tokens or refusal. |
| GraphqlLexer.SkipString | graphql_api8.go:1237-1261 | The scan of a plain string with its escapes. |
| GraphqlLexer.SkipBlock | graphql_api8.go:1225-1235 | The scan of a block string. |
| GraphqlWriting.GapsVanish | graphql_api8.go:1197-1207 | Blanks, commas and comments that end with their line leave no trace in the tokens. |
| GraphqlWriting.SpelledIsRead | graphql_api8.go:1208-1281 | A name, number, string, block string, three dots or punctuator, spelled in any way the language allows, is read as that token and no further. |
| GraphqlWriting.SpellingIsIrrelevant | graphql_api8.go:1189-1287 | A source within 65536 bytes that writes at most 8192 tokens, in any spelling and with any gaps between them, lexes to exactly those tokens. |
| GraphqlSource.SourceRound | graphql_api8.go:1349-1420 | Text of a well-formed document within the byte and token limits parses to what is kept of it. |
| GraphqlSource.WrittenSourceRound | graphql_api8.go:1349-1420 | However a well-formed document within the limits is spelled and spaced, its text parses to what is kept of it. |
| GraphqlSource.SourceSound | graphql_api8.go:1349-1420 | Whatever text is accepted stands for the definitions of some well-formed document. |
| GraphqlPolicies.BetterIsTotal | graphql_api8.go:844-856 | Of two policies with different ids exactly one is the better fallback. |
| GraphqlPolicies.BetterIsTransitive | graphql_api8.go:844-856 | The fallback order is transitive. |
| GraphqlPolicies.BestExactly | graphql_api8.go:844-856 | The best of an endpoint in the order of fallbacks is, exactly: of the highest mode any has, unnamed if one of that mode is, and of the least id then. |
| GraphqlPolicies.RebuildIsUnique | graphql_api8.go:396-413 | Whatever order a rebuild visits the policies in, the runtime snapshot is the same. |
| GraphqlPolicies.EnforcedAfterReview | graphql_api8.go:762-775 | A mode trail that holds ENFORCE starts in LEARN, and its first ENFORCE comes right after DETECT. |
| GraphqlPolicies.PolicyStore.RebuildRuntime | graphql_api8.go:396-413 | The rebuilt runtime holds the stored policies and contracts. An endpoint with a policy falls back to one that enforces if any does, else to one in DETECT if any is; of those in that mode to an unnamed one if there is one, and then to the one with the least id. |
| GraphqlPolicies.PolicyStore.UpsertPolicy | graphql_api8.go:688-760 | An accepted edit stores the policy in LEARN and starts its review; it is refused exactly for a foreign contract or a full store. |
| GraphqlPolicies.PolicyStore.SetMode | graphql_api8.go:777-800 | A policy takes any mode, but from LEARN not ENFORCE, and ENFORCE only with a reason; the step enters its trail. |
| GraphqlPolicies.PolicyStore.UpsertContract | graphql_api8.go:587-633 | A contract with a new digest sends exactly the policies resting on it back to LEARN, with a reason and otherwise unchanged; no other policy changes. |
| GraphqlPolicies.PolicyStore.DeleteContract | graphql_api8.go:649-665 | A contract goes exactly when it exists and no policy names it. |
| GraphqlPolicies.PolicyStore.DeletePolicy | graphql_api8.go:802-813 | A deleted policy leaves store, reviews and runtime. |
| GraphqlPolicies.PolicyStore.RuntimePolicy | graphql_api8.go:815-829 | The operation's own policy is in force, else the endpoint's unnamed one. |
| GraphqlPolicies.PolicyStore.RuntimeEnforcesReviewedOnly | graphql_api8.go:396-413 | A policy enforcing in the runtime has the settings, the contract and the contract digest of its last edit, a reason, and a trail through LEARN and DETECT since. |
| TokenBuckets.LimiterShard.Prune | l7_abuse.go:250-266 | Exactly the idle clients not seen within the time to live go. |
| TokenBuckets.LimiterShard.EvictOldestIdle | l7_abuse.go:268-290 | At most one client goes, a stale one seen longest ago, and none only when none is stale. |
| TokenBuckets.LimiterShard.Prepare | l7_abuse.go:178-191 | Counting an operation, periodic pruning, pruning and evicting when full leave the shard as specified, eviction adding nothing. |
| TokenBuckets.LimiterShard.Allow | l7_abuse.go:172-237 | Lookup, overflow, concurrency, refill and charge give the specified shard, bucket and decision. |
| TokenBuckets.LimiterShard.AllowHandshake | l7_abuse.go:92-143 | The handshake variant is the same limiter without a concurrency limit. |
| TokenBuckets.LimiterShard.Release | l7_abuse.go:239-248 | A release lowers the bucket's active count unless it is zero. |
| TokenBuckets.IdleTtl | l7_abuse.go:300-307 | The time to live is at least two windows and at least five minutes. |
| TokenBucketTheorems.StepKeepsInv | l7_abuse.go:172-266 | Arrivals and releases keep entries, tokens, concurrency and the books of requests in flight within bounds. |
| TokenBucketTheorems.BoundsHold | l7_abuse.go:172-266 | After any run a shard holds at most 1024 clients, active counts equal admissions less releases and stay within the maximum, and every client in flight is still there. |
| TokenBucketTheorems.PreparedKeeps | l7_abuse.go:178-191 | Making room removes stale clients only, never one with a request in flight. |
| TokenBucketTheorems.StaleIsFull | l7_abuse.go:250-266 | A bucket idle for the whole time to live would have refilled to capacity. |
| TokenBucketTheorems.AdmittedFromThePot | l7_abuse.go:172-237 | Once an interval has begun, a handle's admissions until its end never exceed what its bucket holds and what comes back in between. |
| TokenBucketTheorems.RateIsBounded | l7_abuse.go:172-237 | In every run and for any t1 and t2, a client, or the overflow bucket, is let in from t1 to t2 at most capacity + (t2 - t1) * capacity / window times, however long it was quiet and however often forgotten. |
| TokenBucketTheorems.LetInIffWithinTheRate | l7_abuse.go:172-237 | In every run an arrival is let in if and only if its handle has room for one more at a time and, for every t1, was let in since t1 at most capacity - 1 + (now - t1) * capacity / window times: nobody is refused without cause. |
| TokenBucketTheorems.NewcomersAreLetIn | l7_abuse.go:172-237 | Whoever was let in fewer than capacity times so far and has room is let in. |
| TokenBucketTheorems.WithoutARate | l7_abuse.go:210-236 | Without a rate, room for one more at a time is all it takes. |
| TokenBucketTheorems.OverflowExactly | l7_abuse.go:178-191 | The overflow bucket is charged exactly for a newcomer to a shard of 1024 clients that are all in use or seen within the time to live. |
| TokenBucketTheorems.SinceFull | l7_abuse.go:172-237 | At the end of any run a bucket holds at least what came back since it was last full, or since the beginning, less what was let in. |
| TokenBucketTheorems.ForgettingIsInvisible | l7_abuse.go:172-307 | On every run without overflow the pruning shard decides like one that never forgets. |
| TokenBucketTheorems.ForgettingIsInvisibleFromTheStart | l7_abuse.go:172-307 | The same from an empty shard. |
| TokenBucketTheorems.NothingLeftToEvict | l7_abuse.go:185-191 | Right after a pruning the eviction finds nothing, and pruning again changes nothing. |
| Listeners.ListenerManager.Reconcile | listeners.go:369-452 | It succeeds exactly when no bind failed, and then the live sockets are exactly the desired ones, those wanted as they are untouched; a failed addition changes nothing; a failed protocol change goes back to the running configuration, and never reopens what no side changes. No live socket is closed before every new address is bound, and on success removed ones are closed last. No socket leaks. |
| Listeners.ListenerManager.RestoreOld | listeners.go:339-367 | What the old configuration wants as it stands is kept, everything else closed, the rest reopened; it succeeds exactly when the old topology is back. |
| Listeners.ListenerManager.PrepareAdditions | listeners.go:378-394 | All new addresses are bound before anything live is touched; on a failure those bound are closed again. |
| Listeners.ListenerManager.FlipProtocols | listeners.go:396-423 | Only addresses that change protocol are reopened; on a failure no prepared socket is left open. |
| Listeners.ListenerManager.DropRemoved | listeners.go:430-451 | Exactly the addresses no longer desired are closed, last. |
| Listeners.ListenerManager.StartAll | listeners.go:454-464 | At boot every address is bound or reported as failed. |
| Listeners.ListenerManager.ListenerFailed | listeners.go:287-295 | A broken listener is forgotten unless another has taken its place. |
| Listeners.ListenerManager.Retry | listeners.go:297-315 | A retry opens an address only while the running configuration still wants it so, and asks for another exactly when its bind failed. |
| ManagedIps.IpManager.Reconcile | ipmanage.go:183-280 | It succeeds exactly when no external step failed and no wanted address sits on another interface. It adds only wanted addresses, where a place was named there, and records them, removes only its own unwanted ones and only after all additions, and on success all wanted addresses are there. |
| ManagedIps.BackAgain | ipmanage.go:183-280 | After an attempt, complete or not, and a clean return, the host has lost exactly what the attempt adopted and the old configuration does not want; after a complete attempt that is every address at risk. |
| ManagedIps.LossIsPossible | ipmanage.go:206-225 | Any of the addresses at risk, together, can be what a failed attempt and its return cost. |
| ManagedIps.KeepsExactly | ipmanage.go:183-280 | The host is sure to keep its addresses exactly when none is at risk: named for the interface it sits on, not wanted before, and not the manager's. |
| ManagedIps.AdoptionIsNotUndone | ipmanage.go:206-225 | One such address: put on eth1 by the operator, wanted there by an attempt that fails, gone after the return. |
| ApplyTransaction.FrontendPublisher.Publish | tls_frontend_control.go:99-156 | The control file changes as a whole or not at all. |
| ApplyTransaction.FrontendPublisher.PublishAndWait | tls_frontend_control.go:65-97 | A failed wait may leave either specification in the control file. |
| ApplyTransaction.Server.RollbackNetwork | main.go:1189-1202 | A clean rollback brings sockets, addresses and frontend to the old configuration, in that order: a frontend that is to stop does so before its port is bound, one that is to start again does so when its sockets are back. |
| ApplyTransaction.Server.MoveNetwork | main.go:1147-1233 | Moving frontend, sockets and addresses either puts the new configuration in place, exactly when nothing failed or blocked it, or with clean compensation the old one; on the way no socket is bound that the frontend still holds, and no frontend is started before its sockets are there. |
| ApplyTransaction.Server.ApplyEx | main.go:1126-1247 | It succeeds exactly when no external action failed and nothing in the configuration is blocked. A failed apply leaves the runtime and the configured subsystems alone, and after clean compensation the network as it was and the host too, but for addresses at risk, all of them exactly if the new ones had been reached; a successful one has everything in place. No runtime leaks. |
| ApplyTransaction.Server.ApplyPersisted | main.go:1263-1293 | Success, which comes exactly when no external action failed and nothing is blocked, means running, on disk and pushed unless synced in; failure leaves file and peer alone, and after clean compensation the running configuration, which is again the one on disk. |
| ApplyTransaction.Server.MutatePersisted | main.go:1313-1331 | A mutation is applied to the newest running configuration and saved, or nothing is. |
| ApplyTransaction.Server.Attach | main.go:2339-2341 | The sockets of the boot configuration; once all are open everything is in place. |
| HaSync.StepKeepsInv | ha.go:215-256 | Every step of callers and sending loops keeps the coalescing invariant. |
| HaSync.PushesConvergeFromTheStart | ha.go:215-256 | In every interleaving at most one send is in flight, a pending job has a running loop, sent jobs are accepted ones in order, and an idle loop has sent the last one accepted. |
| HaSync.LoopsComeToRest | ha.go:242-256 | Without further pushes the loop can always go on and rests after at most six steps and two sends. |
| HaSync.HaEngine.PushConfig | ha.go:215-240 | An accepted push starts a loop or replaces the pending job. |
| HaSync.HaEngine.TakeNext | ha.go:242-256 | A loop takes the pending job or ends. |
| FlatSchema.SchemaFromFields | api3_export.go:181-187 | The export loop builds the trie of all fields and its schema. |
| FlatSchema.PutAddsField | api3_export.go:189-225 | Inserting a field that parts from all others adds exactly that field to what the trie stands for. |
| FlatSchema.PutAgain | api3_export.go:189-225 | Inserting a field that is there already adds nothing. |
| FlatSchemaRoundTrip.FlattenRoot | api3_contract.go:535-604 | Flattening the schema of a trie gives exactly the fields the trie stands for. |
| FlatSchemaRoundTrip.CanonicalListsComeBack | api3_export.go:181-269 | A canonical list, arrays of arrays included, survives export and import unchanged. |
| FlatSchemaRoundTrip.ComesBackExactly | api3_export.go:181-269 | Any list comes back, as a set, exactly when it is canonical: typed, named, without a reference, no blanks around the path, no deeper than sixteen, values on scalars only and in order, any two paths parting at different names; or when it is nothing but a field for the whole document that does. |
| FlatSchemaRoundTrip.MixedListsChange | api3_export.go:181-197 | A list with a field for the whole document beside others never comes back. |
| FlatSchema.SortedIsSameExactly | api3_contract.go:337-352 | Reading a schema's values, which sorts them, leaves a list alone exactly when it is in order. |
| FlatSchema.DictionaryOrder | api3_contract.go:337-352 | The order of values is that of the dictionary: a prefix comes first, else the lesser character at the first difference. |
| FlatSchema.TrimmedHasNoBlankEnds | api3_export.go:189-198 | Trimming a path leaves it alone exactly when there are no blanks around it. |
| FlatSchemaRoundTrip.TrimmedJoined | api3_export.go:189-198 | Trimming the segments is trimming the dotted text. |
| FlatSchemaRoundTrip.UnflattenTraced | api3_export.go:181-226 | The trie has a node for each field's path and no other, and a node is an array exactly if some path says so. |
| FlatSchemaRoundTrip.NoArrayNames | api3_contract.go:535-604 | In a list that comes back, no array of arrays, and no array whose name ends in a blank, sits at the last level flattening reaches, where its items would be cut off. |
| FlatSchemaRoundTrip.RootFieldComesBack | api3_export.go:189-197 | A lone field for the whole document comes back exactly when its path is $, it is typed, not an object, not required, without a reference, and lists values in order and only as a scalar. |
| FlatSchemaRoundTrip.SplitUndoesJoin | api3_export.go:198-203 | Splitting a dotted path at its dots gives its segments back. |
| IdentityPolicies.JoinIsInjective | identity_api5.go:400-407 | Lists of nonempty items without NULs compare equal by their joined text exactly when they are equal. |
| IdentityPolicies.ConfusedExactly | identity_api5.go:400-407 | Two lists have the same joined text exactly when they show the same stretches between NULs. |
| IdentityPolicies.ComparisonsSeeExactly | identity_api5.go:400-407 | The comparisons of policies and of trust agree exactly when all other fields are equal and all lists show the same. |
| IdentityPolicies.JoinConfusesNuls | identity_api5.go:400-407 | One such pair of different lists, one of them with a NUL inside an item. |
| IdentityPolicies.ComparisonsAreExact | identity_api5.go:571-579 | Without NULs, same semantics is equality but for mode and reason, and same trust is equality. |
| IdentityPolicies.IdentityStore.UpsertIssuer | identity_api5.go:344-382 | Changed trust fields send exactly the enforcing policies of the issuer back to DETECT, otherwise unchanged, and no policy changes else; an issuer in use cannot be disabled; a key cache survives exactly when the trust fields are as before. |
| IdentityPolicies.IdentityStore.UpsertPolicy | identity_api5.go:474-506 | Every field asked for is stored. A policy starts in DETECT and keeps its mode exactly when the request changes nothing else, as far as its lists show; else it is back in DETECT. No key cache is touched. |
| IdentityPolicies.IdentityStore.SetPolicyMode | identity_api5.go:508-538 | The mode is changed by this step only, and a promotion is recorded with the policy and trust as they stand. |
| IdentityPolicies.IdentityStore.DeletePolicy | identity_api5.go:540-552 | A deleted policy leaves store and runtime. |
| IdentityPolicies.IdentityStore.RebuildRuntime | identity_api5.go:581-604 | Every entry carries the stored policy and its issuer's key cache; a cache is kept exactly when it was made for the present trust fields. |
| IdentityPolicies.IdentityStore.EnforcesWhatWasPromoted | identity_api5.go:581-604 | An enforcing entry is the stored policy, unchanged in meaning and trust since its promotion from DETECT; without NULs, exactly the promoted one. |
| ReaderStore.LoadJournal | dashboard_reader_store.go:243-276 | Reading the journal back gives exactly its fold, or refuses exactly when an entry has no id or a number does not rise. |
| ReaderStore.ReadsBackExactly | dashboard_reader_store.go:243-276 | A journal reads back exactly when every entry has an id and a number above zero and above all earlier ones of its kind. |
| ReaderStore.LastRecordsAreRead | dashboard_reader_store.go:243-276 | What reads back holds for each resource the last record on it, and no other resource. |
| ReaderStore.AllDetectionsAreRead | dashboard_reader_store.go:243-276 | And every detection, in order. |
| ReaderStore.SequencesAreHighest | dashboard_reader_store.go:243-276 | And for each kind the highest number given out. |
| ReaderStore.AppendIsOk | dashboard_reader_store.go:394-429 | An append keeps memory equal to the fold of the journal, and revisions rising; a failed sync leaves the file one entry ahead for that kind. |
| ReaderStore.FailedSyncThenAppend | dashboard_reader_store.go:394-429 | After a failed sync, the next append to that kind makes the journal unreadable for good. |
| ReaderStore.Store.AppendLocked | dashboard_reader_store.go:394-429 | The next number of the kind, written and synced before memory follows. |
| ReaderStore.Store.Upsert | dashboard_reader_store.go:431-450 | Nothing for a record as stored; else the resource says what was asked, at its time, under the next number and one revision up, also after a deletion, and nothing else changes; it fails exactly when the append does. |
| ReaderStore.Store.DeleteMissing | dashboard_reader_store.go:452-469 | Unless an append fails, every missing resource of the kind gets a tombstone one revision up, and nothing else changes. |
| ReaderStore.Store.AppendDetection | dashboard_reader_store.go:345-366 | A detection of a rule on a site is the next history row; any other is ignored. |
| ReaderStore.Store.Delta | dashboard_reader_store.go:541-556 | The rows after a watermark up to the limit, and whether more are left. |
| ReaderPages.PageSize | dashboard_reader.go:625-660 | The page served is the longest that fits, and none is served exactly when not even one record fits. |
| ReaderPages.PagesAreTheSnapshot | dashboard_reader.go:581-606 | For any limits and any shortening the pages put together are the snapshot up to the offset reached. |
| ReaderPages.PagingFinishes | dashboard_reader.go:581-606 | As long as single records fit, enough requests give the whole snapshot. |
| ReaderPages.DeltasHaveNoGapOrRepeat | dashboard_reader.go:607-622 | However detections and requests interleave and pages are shortened, a reader gets every detection after its first watermark once and in order. |
| ReaderPages.FollowingASnapshot | dashboard_reader.go:597-622 | Deltas continue from the snapshot's watermark with nothing missing and nothing twice. |
| ReaderPages.PullsCatchUp | dashboard_reader.go:607-622 | As many requests as there are detections left, each for something, get all of them. |
| ReaderServer.Reader.TakeSnapshot | dashboard_reader_store.go:471-512 | A snapshot holds exactly the recent detections, or every resource in number order, and is refused exactly when the pool is full of unexpired ones or cannot be saved. |
| ReaderServer.Reader.Page | dashboard_reader.go:537-661 | A cursor a day old or from before a gap is reset. Any other into one's own snapshot, not older than twenty-five hours, goes on where it stands, as far as limit and byte bound allow; one into the detections gets the next of them; only a bootstrap touches the pool, of which it drops expired snapshots only. |
| ReaderServer.OwnSnapshotIsServed | dashboard_reader.go:581-606 | A cursor into one's own snapshot is served: the page starts where it stands, its cursor goes on behind the page, and only a record too large for any page is refused. |
| ReaderServer.OthersSnapshotIsRefused | dashboard_reader.go:581-586 | A cursor into a snapshot of another principal, kind or epoch, one too old, or beyond its end, is reset. |
| ReaderServer.RecentExactly | dashboard_reader_store.go:471-512 | A snapshot of detections has exactly those no older than the cutoff, in order. |
| ReaderServer.Reader.FirstPage | dashboard_reader.go:574-650 | A bootstrap that fits one page does not keep its snapshot, even if saving that fails; one that does not, keeps it. |
| ReaderServer.Reader.Shorten | dashboard_reader.go:625-660 | The shortening loop ends and finds the page size, giving up when one record is too large. |
| ReaderServer.DeltaAnswerFollows | dashboard_reader.go:607-660 | A delta answer moves a reader as the run of requests has it. |
| BolaEvidence.IdentityIsJustified | bola_detection_api73.go:159-168 | An identity divergence rests on at least two observations of the object by one other identity; with high confidence, five. |
| BolaEvidence.TenantIsJustified | bola_detection_api73.go:170-179 | A tenant divergence rests on at least two observations by one other identity, one of them under another known tenant. |
| BolaEvidence.EnumerationIsJustified | bola_detection_api73.go:181-188 | An enumeration rests on twenty distinct objects of that identity under the locator within ten minutes, the present one included; with high confidence, forty. |
| BolaEvidence.TenantOfLaterSightsIsForgotten | object_relationship_api72.go:386-399 | A relation keeps the tenant of its first observation, so one of the two behind a tenant divergence may have been under the very tenant at hand. |
| BolaEvidence.OneTenantExactly | object_relationship_api72.go:386-399 | The observations a relation counts are all under its tenant exactly as long as each one merged brought that very tenant. |
| BolaStore.OneTenantAfterMerge | object_relationship_api72.go:373-402 | After any merge a relation stands for one tenant exactly when it is new, or did before and was not merged into under another. |
| BolaStore.EvidenceStore.FindContext | bola_detection_api73.go:105-148 | The loop over relations computes the context exactly: distinct identities and tenants, summed observations, recent objects. |
| BolaStore.EvidenceStore.Process | bola_detection_api73.go:150-188 | Judging before merging, the tables after an observation are exactly those the context gives. An identity not known at the object becomes a candidate when another was seen there twice, when it was seen twice under another known tenant, or when it has just been at nineteen other objects, if there is a place; all candidates stay justified by the log and all tables within their caps. |
| BolaStore.FiresExactly | bola_detection_api73.go:150-188 | What makes each kind of candidate, told by the relations alone: the identity is not known at the object, and it was seen there twice by another, twice under another known tenant, or nineteen objects were just seen. |
| BolaStore.ConvincingExactly | bola_detection_api73.go:159-188 | High confidence is exactly: one other identity, seen five times or more; one known tenant, and five sights in all; thirty-nine objects just seen. |
| BolaStore.EvidenceGivesCandidates | bola_detection_api73.go:150-218 | Evidence does give a candidate: seen now, with the confidence it deserves, as long as the table has a place for it after those judged before. |
| BolaStore.SightsAreCounted | object_relationship_api72.go:373-402 | An observation is counted by its relation exactly when there is a place; every other relation within thirty days stays as it was, and no other is left. |
| BolaStore.EvidenceStore.Record | bola_detection_api73.go:190-218 | Expired candidates go, and a firing one is recorded or refreshed with its justification unless a cap is reached. |
| BolaStore.EvidenceStore.Merge | object_relationship_api72.go:373-402 | Expired relations go, and the observation counts towards its relation and enters the log exactly when there is room. |
| BolaEvidence.NewRelationCapped | object_relationship_api72.go:379-385 | A new relation keeps the caps of 8192 in all, 512 per identity and 256 per object. |
| BolaEvidence.NewCandidateCapped | bola_detection_api73.go:196-200 | A new candidate keeps the caps of 4096 in all, 256 per identity and 128 per object. |
| BolaStore.EvidenceStore.PruneRelations | object_relationship_api72.go:430-436 | Exactly the expired relations go. |
| BolaStore.EvidenceStore.PruneCandidates | bola_detection_api73.go:240-246 | Exactly the expired candidates go. |

## Left out

- HTTP handlers, JSON and YAML encoding, file system details, sockets, the `ip` command, goroutine plumbing: saving is one step that succeeds or fails as a whole, and a directory that fails to synchronise after a rename is only a warning, as in the source.
- Cryptography: signed cursors are opaque values that readers cannot make up, hashes that name things are injective ids, JWT and JWKS verification is not part of this model.
- 64-bit overflow and floating-point rounding: numbers are unbounded and limiter arithmetic is over the reals.
- Lock deadlines, context cancellation, the state file's version and source-instance checks, and the trust placed in state files of other stores when they are loaded.
- Random ids are taken to be new; a clock that runs backwards is modelled only where the code looks at it. Limiter runs and the export plane assume a clock that does not go back.
- A restart of the connector whose first save fails starts no process and so is not a step of a run; `OwiDurable.DurableStore.Open` covers it.
- The HA handler that applies a peer's configuration and pushes outside the apply lock, and the merging of peer configurations.
- Go maps are visited in an arbitrary order; so are the maps of this model, and the results do not depend on it.
- Updating buckets through a pointer held by a request: buckets are values in the shard's map and a request holds its key, which the bounds show to stay in the map as long as it is needed.
- Inserting into the export trie through a moving pointer: the trie is a value and insertion a recursion; the loop over fields is kept.
- The order of a field list, and a field listed twice: lists that come back are compared as sets.
- `$ref` resolution and `allOf` on import, which the export never produces: flattening is modelled for the schemas that export writes.
- GraphqlAnalysis.Analyze: gives no reason for a refusal, and its field paths are a set where the source sorts a list.
- GraphQL variable semantics, persisted queries, violations, policy evaluation against an analysis, and the field topology read from schema text; of the schema parser only the skipping loops are modelled.
- BolaStore.EvidenceStore.Process: starts from an observation with its locator and fingerprints already worked out.
- BolaEvidence.EnumerationIsJustified: bounds the ten minutes from below; that no observation lies in the future is the clock's doing.
- ApplyTransaction.Server.ApplyEx: looks at a configuration's validity, listeners, addresses, frontend mode and otherwise only at its identity; the subsystems configured after the swap are one value.
- ApplyTransaction.FrontendPublisher.PreflightCheck: a server always has a publisher here, enabled or disabled, as main.go:2226 makes it; without one the source skips preflight and publishing.
- ManagedIps.IpManager.Reconcile: which interface and prefix an address gets is left open where the source asks the host.
- ReaderStore.Store.AppendLocked: a write that stops in the middle of a line is not modelled, a failed write leaves the file as it was.
- Requests to change identity and GraphQL policies arrive normalised and range-checked; the normalisers are not part of this model.
- Dropped detections of the dashboard reader, whose gap mark is a flag that is never lifted.
- Admin console, audit, users, metrics, notification delivery, syslog, learner heuristics, configuration field checks, and the CIDR engine: input and output or easy.
- Coraza, VectorScan and the TLS frontend's own behaviour are not part of this model.
