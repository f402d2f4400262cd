# zega: the storage core, modelled and proved in Dafny

zega keeps a property graph in one directory: `.graph` files, a write-ahead log that starts from one of them, and valid-time histories inside. This project models that core and the structures around it that have to agree with it, and proves what they promise over all inputs, runs and crashes.

| files | models |
|---|---|
| `Checkpoint.dfy`, `CheckpointSafety.dfy`, `CheckpointSteps.dfy`, `CheckpointGaps.dfy`, `CheckpointKills.dfy`, `CheckpointAnswers.dfy`, `CheckpointStore.dfy` | the directory as a transition system: writers, a checkpoint or import under the import lock, process kills, power cuts, and opening again |
| `Trigger.dfy`, `Spill.dfy` | when a checkpoint is due, and the buffer it encodes the graph into |
| `Calendar.dfy`, `Dates.dfy`, `DateTexts.dfy`, `History.dfy`, `Summaries.dfy`, `LazyHistories.dfy` | civil dates and their spellings, one field's history, tests answered from its bounds, histories that stay encoded until read |
| `Utf8.dfy`, `HistBytes.dfy`, `HistColumns.dfy`, `HistFormat.dfy`, `HistRoundTrip.dfy`, `HistAccepts.dfy`, `HistForm.dfy`, `HistCodec.dfy` | the HIST encoding, versions 1 and 2: what it is, that it round-trips, what it accepts, its bytes spelled out, and the loops that compute it |
| `Graphs.dfy`, `GraphStore.dfy`, `Journal.dfy`, `JournalRollBack.dfy`, `JournalLosses.dfy`, `JournalTime.dfy`, `JournalIntervals.dfy`, `JournalReads.dfy`, `JournalErrors.dfy`, `JournalListings.dfy`, `JournalReplay.dfy`, `JournalStatements.dfy`, `JournalObjects.dfy` | the graph and a statement's journal: undo, roll back, from when its writes are read, when they fail, what is logged, and what replay gives |
| `Morton.dfy`, `Location.dfy`, `Ranges.dfy`, `TextIndex.dfy`, `Indexes.dfy`, `IdSets.dfy`, `Filter.dfy` | the spatial, range and trigram indexes, the id set below them, and finding the rows of a condition through them |
| `Bundle.dfy`, `BundleStore.dfy`, `BundleContents.dfy` | verifying, resolving, stripping and packing bundles, and the paths and references that these do not see |
| `EditDistance.dfy` | the "did you mean" search of the browser's schema checker |
| `Machine.dfy`, `Values.dfy`, `ValueOrder.dfy`, `Wrappers.dfy`, `Assumed.dfy` | machine integers with explicit wrapping, property values, their order and what it is, results; and that what is assumed of code outside the model can be met |

`dafny verify dfyconfig.toml` checks everything.

Structures the program updates in place are classes here (`Track`, `Input`, `Output`, `Graph`, `Journal`, `IdSet`, `SpatialIndex`, `TextIndex`, `DeclaredIndexes`, `Buffer`, `Checkpointer`, `Bundle`, and two called `Store`); each method is proved against a function of the old state, and the theorems are about those functions. The checkpoint is a state machine whose steps are the crash points of `zega/src/checkpoint.rs:331-357`, with separate steps for writers and imports in between.

Code outside the model is a parameter, with a predicate for what is assumed of it: bincode, the hash and file URLs, float casts and rounding, walks and distances in conditions. `SomeBincodeIsLawful`, `SomeWorldIsLawful`, `SomeCastIsMonotone`, `SomeRoundingIsMonotone` and `SomeEngineIsLawful` exhibit one of each. Hashes may collide: nothing here depends on their telling bytes apart.

## What was found

The code keeps most of what its comments promise for every input. Where it does not, the project proves exactly when it does.

- **A refused deletion can lose a relationship.** The comment at `zega/src/journal.rs:53-55` says that on any error the graph is what it was. `delete_node` drops the relationships a node still has, also those whose own deletion was refused just before, and those are in no undo entry. `RollBackRestores` proves that roll back restores everything else, and the whole graph if and only if no relationship the graph had was lost in this way; `RefusedDeletionLosesARelationship` is a statement that loses one, and `RollBackKeepsOpen` says when an interval is left open with no relationship behind it. Memory is then ahead of the log: `MemoryIsTheLogExactly` proves that over any run of statements, whatever their schemas, memory is always what the log replays to if and only if no refused statement lost a relationship.
- **The last id is not always taken back.** A counter at its maximum stays there, so a creation can be given an id that is in use: it replaces what has it, and roll back removes that (`TheLastIdIsNotTakenBack`). At any point of any statement the entries of a creation take it back if and only if the id it was given was free (`NodeCreationIsUndoneExactly`, `RelCreationIsUndoneExactly`), and that is all that `RollBackRestores` asks of ids.
- **The last relationship id can be given out again while an interval under it is on record.** If the new relationship is of a kind without time, it is live while that interval has ended. `CreateRelKeepsOpenExactly` says that this is the only way a creation breaks the agreement of intervals and live relationships.
- **A process kill is not always followed safely.** The module comment at `zega/src/checkpoint.rs:28-35` speaks of a crash at any step. A power cut at any step loses nothing (`EveryWriteSurvives`). A killed process leaves what it saw, and the next process trusts it: a rename of the log that no directory sync covers yet, or an import's entry that no file sync covers yet, after which it deletes the file the durable log starts from. `KillsAreSafeExactlyWhenSettled` proves, for every state the invariant allows, that a kill is safe for all later runs and power cuts if and only if the log was settled, and says what settled means. Both ways of not being settled are reached: between the rename of a log and the sync after it (`AKillBeforeTheSyncIsUnsafe`), and with an import's entry in the file but not synced (`AKillDuringAnImportIsUnsafe`).
- **A checkpoint or import of a log without entries can make an open refuse.** Until its log entry is in place there is a `.graph` file beside an empty log, which an open takes for a lost log (`RefusedExactly`, `CheckpointOfAnEmptyLogMayBeRefused`). Nothing that was acknowledged is lost.
- **A retry delay outlives its log.** `retry_at` is a position in the log that failed; after a later checkpoint succeeds, the next one waits for the new log to reach that position (`RetryOutlivesTheLog`). `ADueCheckpointIsHeldBack` is a session of seven events in which it happens.
- **An empty write past the end** of the in-memory buffer fills the gap, which a file would not do (`WriteIsFileWrite` says exactly when). `write_all`, which the graph writer uses, makes no such write.
- **A history's bounds can hide a number.** `docs/time.md:83-84` says that ordered comparisons can skip a scan by a history's minimum and maximum. A float that is infinite is no JSON number, so no comparison holds of it, and with one as a bound the two bounds can agree while a number between them differs. `SummariesAreRightExactly` proves that the bounds answer every test rightly if and only if no number lies strictly between bounds of which one is infinite.
- **A hash repeated in one subject** of a bundle is satisfied by a local path only the first time (`OnlyTheFirstReferenceIsLocal`).
- **A packed bundle can ship local paths, current and old.** The comments at `zega/src/bundle.rs:511-515` and `:521-522` say that a packed graph holds none. The scan reads plain strings in fields declared as `String<file>` to the letter under a node's first label. A field may also be `<String<file>>`, `String<file>[]` or declared under a second label, and its values are checked as file URLs all the same when they are written (`zega/src/lang/mod.rs:984-1000`). Such a path ships, and so does a list of file URLs in a graph without a schema (`APathInATemporalFieldShips`, `AListOfPathsShips`, `APathOfASecondTypeShips`). When the scan finds no path the file ships as it is, with its valid-time histories (`AnOldPathShips`). `NoPathShipsExactly` and `NoFileUrlShipsExactly` prove, for every graph, when none ships; `UnscannedPaths` says which paths the scan sees.
- **A bundle can verify with a reference that is nowhere.** The comment at `zega/src/bundle.rs:454-457` speaks of every reference. A hash in a `<String<blake3>>` or `String<blake3>[]` field is not scanned (`ADanglingReferenceVerifies`). `VerifiedReferencesArePresentExactly` and `PackedReferencesArePresentExactly` say when every reference of a bundle that verifies, or of one that was packed, has its bytes.
- **An import does not start a new count.** The comment at `zega/src/lib.rs:528-529` says that after an import the next checkpoint waits for the log to outgrow the imported file. What was logged before the import counts towards that (`AnImportCountsWhatWasLoggedBefore`); `AnImportCanBeDueAtOnce` is a session in which a checkpoint is due with nothing logged since.
- **A checkpoint that waits for an import can cost more than the log it replaces.** The comment at `zega/src/checkpoint.rs:198-202` says at most twice the writes. A checkpoint is found due (line 304) before it waits for the lock that imports hold (lines 123-126), and nothing looks again. `TwiceTheLogAndLateImports` is the bound for every session, in which the files imported during such waits count too; `TwiceTheLogAtMost` is the promised one, for sessions with no import then; `AnyWaitCanBreakTheBound` proves that an import during any wait can break it, and `ALateImportBreaksTheBound` is a session of 150 bytes logged and 1,000,000 written.

## Model

| member | source | states |
|---|---|---|
| CheckpointSteps.StepKeeps | zega/src/checkpoint.rs:140-196 | every step of a writer, checkpoint, import, kill or power cut keeps the invariant of log, files and acknowledgements |
| CheckpointSteps.EveryWriteSurvives | zega/src/checkpoint.rs:10-33 | after any run, whatever a power cut leaves opens to the acknowledged graph and at most entries still in flight, and is refused only while the durable log has no entry |
| CheckpointSteps.EveryWriteSurvivesAKill | zega/src/checkpoint.rs:28-33 | the same of what a killed process leaves |
| CheckpointAnswers.AnsweredWriteIsOnDisk | zega/src/wal/mod.rs:324-342 | after a write is begun and answered, memory and the acknowledged graph are what memory was and the write, and the durable log is the whole log and its entry |
| CheckpointAnswers.FailedWriteLeavesNothing | zega/src/wal/mod.rs:839-917 | a write that fails and is taken out again changes nothing but, perhaps, that the log is poisoned |
| CheckpointAnswers.AnsweredImportReplaces | zega/src/lib.rs:515-533 | after an answered import memory and the acknowledged graph are the imported one, by a durable entry and a durable file |
| CheckpointAnswers.EveryAnswerIsKept | zega/src/checkpoint.rs:28-30 | told from the steps alone: after any run whatever a power cut leaves opens to a graph that holds every answered write in order and nothing that was not begun, counted anew from an import, and from one that failed only perhaps |
| CheckpointAnswers.AnswersAreKept | zega/src/checkpoint.rs:28-30 | without imports: each write whose beginning was followed by its answer, after what the directory held at first; an open refuses only if there was none |
| CheckpointSafety.PowerCutKeepsEveryWrite | zega/src/wal/mod.rs:513-589 | opening any directory a power cut may leave replays the found log from its last replacement to a graph the invariant accepts |
| CheckpointSafety.NamedFileIsOnDisk | zega/src/checkpoint.rs:170-185 | the file the durable log starts from is always there, synced and never deleted |
| CheckpointSafety.FoldFromReplacement | zega/src/lib.rs:258-271 | replay from the last replacement equals replay of the whole log |
| CheckpointSafety.SurvivorIsAccepted | zega/src/wal/mod.rs:888-917 | whatever part of the unsynced tail survives, the log can be read and holds every acknowledged write |
| CheckpointSafety.PromotedIsAccepted | zega/src/wal/mod.rs:928-955 | a whole next log found beside an empty one opens to the acknowledged graph |
| CheckpointSteps.NextMeansTheSame | zega/src/wal/mod.rs:422-446 | the rotated log, one replacement and the entries since, folds to the same graph as the log it replaces |
| CheckpointSteps.SyncedKeepsLogs | zega/src/wal/mod.rs:888-917 | one sync acknowledges every entry appended so far |
| CheckpointSteps.RenameLogKeeps | zega/src/wal/mod.rs:452-476 | renaming the next log over the log keeps the invariant while either of the two may be what a power cut leaves |
| CheckpointSteps.DeletingKeeps | zega/src/lib.rs:880-887 | deleting superseded files in any order, and stopping anywhere, takes away nothing that a surviving log would read |
| CheckpointSteps.PromotedUnsyncedKeeps | zega/src/wal/mod.rs:928-955 | promoting a next log that was never synced keeps the invariant |
| CheckpointKills.KillsAreSafeExactlyWhenSettled | zega/src/lib.rs:229-285 | a process kill is safe for every later run and power cut if and only if the log was settled |
| CheckpointKills.EveryCutIsSafe | zega/src/checkpoint.rs:28-35 | from the first open on, every power cut leaves a directory that opens to its own log and every acknowledged write, or is refused while nothing was acknowledged |
| CheckpointKills.PendingRenameLosesTheNextWrite | zega/src/wal/mod.rs:474-489 | while a rename of the log is not durable, the next process can acknowledge a write that a power cut takes away |
| CheckpointKills.UnsyncedReplacementLosesTheStart | zega/src/lib.rs:272-285 | while an import's entry is not synced, the next process can delete what the durable log starts from |
| CheckpointKills.AKillBeforeTheSyncIsUnsafe | zega/src/wal/mod.rs:452-489 | the nine steps from the first open to the rename of the first checkpoint's log, and that a kill there is unsafe for some later run and power cut |
| CheckpointKills.AKillDuringAnImportIsUnsafe | zega/src/lib.rs:272-285 | a checkpoint and an import of another graph up to its log entry, and that a kill which leaves the entry is unsafe |
| CheckpointGaps.AcknowledgedStays | zega/src/checkpoint.rs:28-30 | with no import under way no step takes an acknowledged write back |
| CheckpointGaps.RefusedExactly | zega/src/lib.rs:852-879 | an open refuses exactly when the log is found empty beside a torn next log, or beside `.graph` files with no next log to go on with |
| CheckpointGaps.CheckpointOfAnEmptyLogMayBeRefused | zega/src/lib.rs:847-852 | a run whose power cut makes the open refuse although nothing is lost |
| CheckpointStore.Store.Checkpoint | zega/src/checkpoint.rs:122-196 | whatever writers do before the rotation and between the deletions after it, a checkpoint that succeeds leaves the log one replacement by the graph of its lock and later writes, that graph acknowledged with all that is synced since, memory what the log folds to, and no other file unless a deletion failed |
| CheckpointStore.Store.WriteAside | zega/src/checkpoint.rs:140-176 | the graph made durable before the rotation is the one taken under the lock |
| CheckpointStore.Store.Rotate | zega/src/wal/mod.rs:399-490 | the new log is one replacement and the entries since, all of it acknowledged |
| CheckpointStore.Store.Clean | zega/src/lib.rs:880-887 | everything superseded is deleted, up to a deletion that fails, with writers running in between; the log goes on starting from the kept graph |
| CheckpointStore.Store.LetWritersRun | zega/src/checkpoint.rs:22-25 | any sequence of appends, syncs and failures by writers keeps the invariant, the checkpoint's place, what the log starts from and the files |
| Triggers.NotDueBeforeTheGraphIsOutgrown | zega/src/checkpoint.rs:106-108 | after a checkpoint none is due before the floor and the graph's size are logged again, however long its tail |
| Triggers.TwiceTheLogAndLateImports | zega/src/checkpoint.rs:122-126 | over any session the graph bytes that checkpoints write are at most twice the bytes logged and the files imported while one waited for the import lock, if each graph exceeds the last or the imported one by at most the log since |
| Triggers.TwiceTheLogAtMost | zega/src/checkpoint.rs:198-202 | at most twice the bytes logged, over any session in which no import is committed between finding a checkpoint due and taking it |
| Triggers.AnyWaitCanBreakTheBound | zega/src/checkpoint.rs:302-306 | whenever a checkpoint waits, some import makes what it then writes more than twice everything logged |
| Triggers.ALateImportBreaksTheBound | zega/src/checkpoint.rs:302-306 | a session of 150 bytes logged and 1,000,000 written, by a checkpoint that was no longer due |
| Triggers.FailureIsNotRetriedAtOnce | zega/src/checkpoint.rs:289-317 | after a failure the next attempt waits for exactly one more threshold of bytes since the look that began it |
| Triggers.RetryOutlivesTheLog | zega/src/checkpoint.rs:307-312 | after a success, whatever was written during it, the next checkpoint is due by the new log's growth alone, and is attempted if and only if that log also reaches the old position |
| Triggers.AnImportCountsWhatWasLoggedBefore | zega/src/lib.rs:528-532 | after an import a checkpoint is due if and only if the growth since the last checkpoint, from before the import on, reaches the floor and the imported file |
| Triggers.AnImportCanBeDueAtOnce | zega/src/lib.rs:528-532 | a session after whose import a checkpoint is due with nothing logged since |
| Triggers.ADueCheckpointIsHeldBack | zega/src/checkpoint.rs:289-317 | a session after whose last append a checkpoint is due and not attempted |
| Triggers.Checkpointer.Loop | zega/src/checkpoint.rs:289-317 | the thread's loop is the session run, for any order of appends, imports, looks and checkpoints, also between a look and its checkpoint |
| Triggers.Checkpointer.IsDue | zega/src/checkpoint.rs:203-208 | the length, the threshold and whether the growth since the last checkpoint reaches it |
| Spill.WriteIsFileWrite | zega/src/checkpoint.rs:232-241 | a write has the contents and position of a file's write if and only if it is not an empty one past the end in memory |
| Spill.SeekIsFileSeek | zega/src/checkpoint.rs:251-258 | a seek moves and fails as a file's, before and after the switch |
| Spill.RunIsFileRun | zega/src/checkpoint.rs:211-258 | any run at any cap leaves a file's bytes and position, and memory under the cap |
| Spill.EncodingReachesTheFile | zega/src/checkpoint.rs:140-162 | any encoding run of non-empty writes, then spilling, leaves the file as if written directly |
| Spill.AnEmptyWriteCanFillAGap | zega/src/checkpoint.rs:232-241 | the two-call run in which the buffer and a file differ |
| Spill.Buffer.Write | zega/src/checkpoint.rs:231-241 | the write in place is the specified one and reports every byte written |
| Spill.Buffer.Move | zega/src/checkpoint.rs:221-228 | moving to the file changes neither contents nor position |
| Calendar.WalkCounts | zega/src/history.rs:254-265 | the closed-form day number of the n-th day walked from 1970-01-01 is n, in both directions |
| Calendar.EveryDateIsWalked | zega/src/history.rs:254-265 | every civil date is reached by walking its day number |
| Calendar.CivilOfIsWalk | zega/src/history.rs:266-276 | the closed-form inverse is the walk, for every integer day |
| Calendar.DayNumberIsOrdered | zega/src/history.rs:238-265 | earlier dates have smaller day numbers, and only they |
| Dates.FormatThenDate | zega/src/history.rs:204-288 | a printed instant reads back as itself if and only if it lies in the years 0000 to 9999, and is refused otherwise |
| Dates.DateThenFormat | zega/src/history.rs:204-288 | what is read prints as the canonical spelling of the same text |
| Dates.DateIsMonotone | zega/src/history.rs:204-265 | two accepted texts compare as their fields do, most significant first |
| Dates.DateIsInRange | zega/src/history.rs:204-265 | every accepted text names an instant of the years 0000 to 9999 |
| DateTexts.DatesAreTheSpellings | zega/src/history.rs:204-265 | a text is a date if and only if it is one of the three spellings of a real instant of the years 0000 to 9999, and then it names that instant |
| DateTexts.SpellingsRead | zega/src/history.rs:204-265 | the day, minute and second spellings of the k-th day from 1970-01-01, counted one at a time, read as 86400 k and the seconds of the clock |
| Values.CompareLaws | zega/src/history.rs:99-107 | comparability is an equivalence on comparable values and the comparison a total order within it |
| ValueOrder.TextIsLexicographic | zega/src/history.rs:99-107 | one string comes before another exactly when it is a proper prefix of it or has the smaller character where they first differ |
| ValueOrder.TextComparesAsItsBytes | zega/src/v2.rs:2700-2702 | the order of strings is that of their UTF-8 bytes |
| ValueOrder.FloatsAreNumbers | zega/src/history.rs:99-107 | the order of float bits is that of the numbers they stand for |
| ValueOrder.CompareIsTheOrder | zega/src/history.rs:99-107 | exactly which values compare, and that they do as numbers, as strings in a dictionary, and false before true |
| ValueOrder.MeetsIsTheComparison | zega/src/v2.rs:2597-2704 | a condition holds of two strings, two integers or two floats exactly when their order says so, strictly for the strict tests; of other numbers by the nearest floats; and of nothing else |
| ValueOrder.IntervalIsTheClosedTest | zega/src/v2.rs:2117-2126 | the interval of a condition holds exactly the keys of its closed form |
| ValidTime.InsertChangesOnlyItsInterval | zega/src/history.rs:74-97 | an insertion is read from its time up to the next later change and nowhere else |
| ValidTime.InsertionsCommute | zega/src/history.rs:74-92 | insertions at different times may be made in either order |
| ValidTime.InsertKeepsWellFormed | zega/src/history.rs:74-92 | insertion keeps times strictly ascending and the derived fields right |
| ValidTime.DerivedFieldsAreRight | zega/src/history.rs:74-107 | `first` and `last` are the times all changes lie between; `ordered` holds exactly when all values compare, and then the bounds are values that bound all |
| Summaries.SummariesAreRightExactly | zega/src/v2/time.rs:23-57 | a history's bounds answer every ordered test rightly if and only if no number lies strictly between bounds of which one is infinite |
| Summaries.SummaryIsTheScan | zega/src/v2/time.rs:138-190 | what the bounds say rightly is what a scan of the changes finds: at some change, at every change, first at the first and last at the last |
| ValidTime.Track.Insert | zega/src/history.rs:74-92 | the update in place is the specified insertion |
| ValidTime.Track.Refresh | zega/src/history.rs:79-92 | one pass recomputes bounds, flag and ends |
| LazyHistories.Store.Read | zega/src/history.rs:128-139 | decoding on first read never changes what is read |
| LazyHistories.Store.Change | zega/src/history.rs:140-149 | histories open to change only when decoded, and an undecodable blob is kept |
| LazyHistories.Store.Bytes | zega/src/history.rs:153-163 | the bytes to store decode to what a reader gets, and there are none only when there is nothing |
| Utf8.TextSurvives | zega/src/history.rs:317-319 | text encoded as bytes decodes to itself |
| Utf8.OnlyTextIsRead | zega/src/history.rs:427-433 | accepted bytes are exactly some text's encoding |
| HistBytes.VarSurvives | zega/src/history.rs:304-344 | a varint of any u64 reads back with the bytes after it untouched |
| HistBytes.VarintIsLeb128 | zega/src/history.rs:304-310 | a varint is its number in groups of seven bits, lowest first, in the shortest form |
| HistBytes.BlobSurvives | zega/src/history.rs:317-356 | a length-prefixed blob reads back |
| HistBytes.ZigSurvives | zega/src/history.rs:311-316 | zigzag is undone on every i64 |
| HistBytes.XorCancels | zega/src/history.rs:466-469 | the float column's exclusive or is undone |
| HistBytes.Input.ReadVar | zega/src/history.rs:331-344 | the varint loop, with its two overflow errors, is the specified reader |
| HistBytes.Output.Put | zega/src/history.rs:304-310 | the varint loop writes the specified bytes |
| Machine.WrappingDifference | zega/src/history.rs:381-387 | a wrapping difference added back with wrapping gives the value, for all i64 |
| HistColumns.ColumnSurvives | zega/src/history.rs:358-419 | a column whose items survive reads back whole, at the head of any bytes |
| HistColumns.ColumnIsHonest | zega/src/history.rs:420-498 | a column whose reader is honest yields only lists its writer is allowed |
| HistRoundTrip.RoundTrip | zega/src/history.rs:502-689 | decode(encode(h)) is h for all well-formed histories, version 1 or 2 as their parts demand |
| HistForm.VersionOneForm | zega/src/history.rs:357-418 | the bytes of one field's history, from the version and the dictionary to the times and values |
| HistForm.VersionTwoForm | zega/src/history.rs:500-576 | the bytes of an ended relationship and an appearance, after the fields of version 1 |
| HistForm.ValueForms | zega/src/history.rs:388-415 | the tags 0 to 6 and what follows each |
| HistForm.TimesOfThree | zega/src/history.rs:381-387 | times as zigzag differences of differences |
| HistRoundTrip.FieldsRoundTrip | zega/src/history.rs:358-498 | the same of the field layer: dictionary, keys, times and values |
| HistRoundTrip.RelationshipsRoundTrip | zega/src/history.rs:509-559 | the relationship columns read back, followed by anything |
| HistRoundTrip.LifetimesRoundTrip | zega/src/history.rs:560-574 | the lifetime columns read back |
| HistAccepts.DecodedIsWellFormed | zega/src/history.rs:577-689 | whatever bytes are accepted, only well-formed histories come out |
| HistAccepts.DecodedAgain | zega/src/history.rs:502-689 | what was accepted keeps its meaning when encoded and decoded again |
| HistAccepts.NothingAcceptedCanBeExtended | zega/src/history.rs:685-688 | every byte is spent: an accepted encoding with more bytes is refused as trailing |
| HistCodec.EncodeOut | zega/src/history.rs:502-576 | the encoder's loops compute the specified encoding |
| HistCodec.DecodeIn | zega/src/history.rs:577-689 | the decoder's loops end on every byte string with the specified result or error |
| HistRoundTrip.AddFieldsAdds | zega/src/history.rs:360-373 | adding fields to a dictionary adds exactly the texts they use and keeps it strictly ascending |
| HistCodec.BuildDictionary | zega/src/history.rs:360-373 | the dictionary is every field name and string value, once, in order, and nothing else |
| HistCodec.BuildKinds | zega/src/history.rs:507-515 | the same of the kinds of the relationships |
| HistCodec.GetValues | zega/src/history.rs:458-486 | inserting values one at a time gives the history of all of them |
| HistCodec.GetStops | zega/src/history.rs:647-658 | intervals stop at or after they start, or are refused |
| GraphStore.Graph.CreateNode | zega/src/graph/mod.rs:478-502 | a node gets the next id and nothing else changes |
| GraphStore.Graph.DeleteNode | zega/src/graph/mod.rs:584-593 | the node goes with every relationship that touches it, and no other |
| GraphStore.Graph.RestoreRelationship | zega/src/graph/mod.rs:607-629 | the relationship is stored, its counter passed, adjacency still equal to a scan |
| GraphStore.Graph.DeleteRelationship | zega/src/graph/mod.rs:631-651 | the relationship goes, adjacency still equal to a scan |
| GraphStore.Graph.NodeRelationshipIds | zega/src/graph/mod.rs:573-582 | without a scan, exactly the relationships a scan would find, each once and in order |
| GraphStore.Graph.RecordHistory | zega/src/graph/mod.rs:294-311 | each named property goes into its own history |
| GraphStore.JoinAgrees | zega/src/graph/mod.rs:607-629 | adding to both ends' adjacency keeps it equal to a scan, loops included |
| GraphStore.LeaveAgrees | zega/src/graph/mod.rs:631-645 | removing from both ends keeps it equal to a scan, and no empty entry |
| JournalRollBack.RollBackConcat | zega/src/journal.rs:114-154 | undo entries of two parts are taken back from the second to the first |
| JournalRollBack.CreateNodeUndoes | zega/src/journal.rs:219-285 | the entries of a creation under a free id take back node, histories and lifetime |
| JournalRollBack.UpdateNodeUndoes | zega/src/journal.rs:290-336 | the same of an update, with or without temporal fields |
| JournalRollBack.CreateRelUndoes | zega/src/journal.rs:377-423 | the same of a relationship and its interval |
| JournalRollBack.NodeCreationIsUndoneExactly | zega/src/graph/mod.rs:478-495 | at any point of any statement, a node's creation is taken back by its entries if and only if the id it was given was free |
| JournalRollBack.RelCreationIsUndoneExactly | zega/src/graph/mod.rs:595-629 | the same of a relationship's creation |
| JournalRollBack.DeleteRelUndoes | zega/src/journal.rs:432-497 | the same of a deletion, whether refused, ended or plain |
| JournalLosses.DeleteNodeUndoes | zega/src/journal.rs:339-374 | deleting a node is taken back but for exactly the relationships whose deletion was refused |
| JournalLosses.RunUndoes | zega/src/journal.rs:114-154 | any number of writes whose creations find free ids are taken back but for what the deleted nodes lost and no earlier deletion gives back |
| JournalLosses.RollBackRestores | zega/src/journal.rs:53-154 | for any statement whose creations find free ids, roll back restores nodes, relationships, histories, intervals, lifetimes and counters, and the whole graph if and only if nothing it had was lost |
| JournalLosses.RefusedDeletionLosesARelationship | zega/src/journal.rs:339-374 | a statement that fails and still loses a relationship |
| JournalLosses.OneNodeIsTakenBackExactly | zega/src/journal.rs:114-154 | a statement that creates one node is rolled back exactly if and only if the id it is given is free |
| JournalLosses.OneRelationshipIsTakenBackExactly | zega/src/journal.rs:114-154 | the same of one relationship |
| JournalLosses.TheLastIdIsNotTakenBack | zega/src/graph/mod.rs:478-502 | creations at the last ids whose roll back removes the node and the relationship that had them |
| JournalTime.StepKeepsOrder | zega/src/journal.rs:200-497 | every write, at any time, leaves histories in order and no interval or lifetime ending before it starts |
| JournalListings.OrderlyTimelinesAreStored | zega/src/history.rs:647-658 | so what statements leave can be listed in key order, and every such listing encodes to bytes that decode to it |
| JournalTime.StepKeepsLive | zega/src/journal.rs:219-336 | under one schema every live temporal field is the newest value of its history, backfills included |
| JournalTime.AsOfTheLastChangeIsLive | zega/src/history.rs:182-187 | from a field's last change on, an as-of read is the live read |
| JournalIntervals.RunKeepsOpen | zega/src/journal.rs:377-497 | through every statement a recorded relationship is live exactly while its interval is open |
| JournalIntervals.CreateRelKeepsOpenExactly | zega/src/journal.rs:377-423 | a creation keeps this if and only if it has time or its id has no interval on record, which below the last id always holds |
| JournalIntervals.AsOfTheLastEventIsLive | zega/src/history.rs:25-29 | a late enough as-of read of relationships finds exactly the live ones |
| JournalIntervals.DeletionIsSeenFromItsTime | zega/src/journal.rs:432-497 | a deletion is seen from its own time on, and not before |
| JournalReads.UpdateIsRead | zega/src/journal.rs:290-337 | a temporal field is read as the value written from the write's time up to its next later change, and as its history had it elsewhere; any other field as written or as before |
| JournalReads.UpdateIsLive | zega/src/journal.rs:290-337 | what is live after an update: the value written, unless the field is temporal and has a later change on record |
| JournalReads.CreationIsRead | zega/src/journal.rs:219-244 | a new node is stored with its labels and values, and its temporal fields are read from the write's time on |
| JournalReads.NodeWritesLeaveOthers | zega/src/journal.rs:219-337 | of every other node all fields read as before at every time, and no relationship or interval changes |
| JournalReads.EarlierValuesAreKept | zega/src/history.rs:74-78 | of two values written one after the other each is read over its own time |
| JournalReads.RelationshipIsSeenFromItsTime | zega/src/journal.rs:377-423 | a relationship with time is contained exactly from the statement's time on, as created; every other interval is what it was |
| JournalReads.DeletionIsSeen | zega/src/journal.rs:432-497 | an accepted deletion takes exactly that relationship; with time it is contained from where its interval began, or ever, up to the statement's time |
| JournalReads.NodeDeletionIsSeen | zega/src/journal.rs:339-375 | deleting a node takes it, the relationships that touch it and their records; all else reads as before |
| JournalReads.LifetimeIsSeen | zega/src/journal.rs:246-285 | a node is visible from the date its type's `appears` field names until the one its `ends` field names; a reversed lifespan is an error and changes nothing |
| JournalErrors.WriteFailsExactly | zega/src/journal.rs:219-497 | with readable histories a write fails if and only if it changes mirror facts, ends a relationship before it began or leaves a reversed lifespan |
| JournalErrors.DoneExactly | zega/src/journal.rs:56-112 | exactly when a statement is done, and that its graph is then the one its writes left |
| JournalIntervals.RollBackKeepsOpen | zega/src/journal.rs:339-374 | a roll back keeps this if and only if no relationship with an interval was lost |
| JournalReplay.RunLogs | zega/src/lib.rs:627-740 | replaying what a statement without errors logged gives the graph it left in memory |
| JournalReplay.SameReplayAll | zega/src/lib.rs:627-740 | replay does not depend on whether histories are still encoded |
| JournalStatements.RefusedLeavesNothing | zega/src/journal.rs:53-112 | whatever schemas it runs under, a refused statement logs nothing and leaves the graph as it was but for its losses |
| JournalStatements.DoneIsLogged | zega/src/journal.rs:79-108 | a statement that was done is one log entry that replays to memory, or logged nothing and changed nothing |
| JournalStatements.MemoryIsTheLogExactly | zega/src/journal.rs:53-112 | over any run of statements with any schemas, memory is at every point what the log replays to if and only if no refused statement lost a relationship |
| JournalStatements.MemoryIsTheLog | zega/src/journal.rs:53-112 | at the end of a run in which no refused statement lost a relationship, memory is what the log replays to |
| JournalStatements.StatementsKeep | zega/src/journal.rs:53-112 | any run of statements, lossy ones included, leaves the graph closed, ids below their counters and the valid-time records in order |
| JournalStatements.StatementsKeepLive | zega/src/journal.rs:219-336 | any run of statements under one schema, done or refused, leaves every recorded field's live value the newest one recorded |
| JournalObjects.Journal.CreateNode | zega/src/journal.rs:219-244 | the writes in place are the specified creation: graph, undo entries and log entries |
| JournalObjects.Journal.UpdateNode | zega/src/journal.rs:290-336 | the same of an update, whose live values come from the histories |
| JournalObjects.Journal.DeleteNode | zega/src/journal.rs:339-374 | the same of deleting a node, including what goes on after a refusal |
| JournalObjects.Journal.CreateRelationship | zega/src/journal.rs:377-423 | the same of creating a relationship |
| JournalObjects.Journal.DeleteRelationship | zega/src/journal.rs:432-497 | the same of deleting one, with its early returns |
| JournalObjects.Journal.RecordNodeLifetime | zega/src/journal.rs:246-285 | the same of recording a lifetime or refusing a reversed one |
| JournalObjects.RollBackAll | zega/src/journal.rs:114-154 | the loop over the undo list in reverse computes the specified roll back and resets the counters |
| JournalObjects.RunAtomically | zega/src/journal.rs:53-112 | the whole statement, every early exit included, is the specified one |
| IdSets.IdSet.Insert | zega/src/idset.rs:28-53 | the represented set gains the id, the flag says whether it was new, and the size bands hold |
| IdSets.IdSet.Remove | zega/src/idset.rs:55-83 | the represented set loses the id, the flag says whether it was there, and the size bands hold |
| IdSets.IdSet.Contains | zega/src/idset.rs:85-92 | membership in the represented set |
| IdSets.IdSet.Len | zega/src/idset.rs:94-101 | the size of the represented set |
| IdSets.IdSet.Iterate | zega/src/idset.rs:108-119 | every id once |
| IdSets.MovesAreRare | zega/src/idset.rs:13-83 | nine operations pay for every move between vector and hash set, over any run |
| Morton.InterleaveIsInjective | zega/src/location.rs:155-164 | different grid cells have different keys |
| Morton.InterleaveIsTheBits | zega/src/location.rs:155-164 | the bits of a key are those of the column and the row in turn |
| Morton.CellIsARun | zega/src/location.rs:219-252 | a quadtree cell's keys are exactly the run that shares its prefix |
| Morton.Key | zega/src/location.rs:155-164 | the bit loop computes the interleaving |
| Morton.CoverAscends | zega/src/location.rs:219-252 | the intervals come ascending, disjoint and inside the cell's own run |
| Morton.CoverIsAligned | zega/src/location.rs:219-252 | every interval is a whole prefix run |
| Morton.GridCoverIsExact | zega/src/location.rs:219-252 | a key is covered exactly when the aligned 256 x 256 block of its cell meets the rectangle |
| Morton.CoverCell | zega/src/location.rs:219-252 | the recursion pushes exactly those intervals |
| Locations.GridIsMonotone | zega/src/location.rs:152-154 | the grid keeps order through any monotone rounding |
| Locations.ContainedPointsAreCovered | zega/src/location.rs:97-117 | the block of every point in a box meets one of its rectangles, across the antimeridian too |
| Locations.ContainsIsTheBox | zega/src/location.rs:109-117 | a box holds its latitudes and the meridians met going east from its west to its east, but for the second name of the one opposite Greenwich |
| Locations.GridIsTheParts | zega/src/location.rs:152-154 | a coordinate between two grid lines is of their part, or of the next if rounded up to it; on a line, of that line's part |
| Locations.CheckedCornersMakeABox | zega/src/location.rs:97-108 | two valid corners make a box unless south is above north |
| Locations.SpatialIndex.Insert | zega/src/location.rs:166-173 | buckets hold exactly what was placed, each id under the key of each of its points, none empty |
| Locations.SpatialIndex.Remove | zega/src/location.rs:174-187 | the same after a removal, which takes an id out of one bucket; empty buckets and fields dropped |
| Locations.WithoutTheOnlyPoint | zega/src/location.rs:174-187 | while an id has one point in a field, that is the point and nothing else |
| Locations.SpatialIndex.Candidates | zega/src/location.rs:188-216 | after any run of insertions and removals exactly the ids with a point whose block meets the box, so every id with a point in it |
| Ranges.KeyOrderLaws | zega/src/index.rs:54-84 | keys are totally ordered, numbers before strings, and compare as the numbers they are |
| Ranges.IntersectionIsExact | zega/src/index.rs:159-181 | an intersection holds exactly what both intervals hold |
| Ranges.BoundsAreExact | zega/src/index.rs:183-203 | the bounds a tree is searched with select exactly the interval |
| Ranges.SatisfiedIsIn | zega/src/v2.rs:2117-2126 | a value that meets a condition has its key in the condition's interval, though integers are keyed by the nearest float |
| Ranges.SatisfiedIsInJoined | zega/src/v2.rs:2153-2236 | the same of any conjunction of conditions on one field |
| TextIndexes.MatchHasEveryGram | zega/src/index.rs:207-228 | a text that contains, starts or ends with the needle has every gram of the probe |
| TextIndexes.GramsAreParts | zega/src/index.rs:216-218 | the grams of a text are exactly the strings of three characters in it |
| TextIndexes.AgreeingPostingsAreEqual | zega/src/index.rs:230-281 | there is one index of given texts, however it came about |
| TextIndexes.TextIndex.Insert | zega/src/index.rs:237-243 | the id gets the grams of the text and keeps those it has; postings that were those of some texts are those with this one if and only if no gram of an earlier text of the id is left over |
| TextIndexes.TextIndex.Remove | zega/src/index.rs:244-255 | the id loses the grams of the text, empty lists dropped; what was right for some texts is right without the id under the same condition |
| TextIndexes.PostedAgreesExactly | zega/src/index.rs:237-243 | inserting makes a text the text of its id if and only if it has every gram of the one the id has |
| TextIndexes.UnpostedAgreesExactly | zega/src/index.rs:244-255 | removing leaves no trace of the id if and only if the text has every gram of the one the id has |
| TextIndexes.TextIndex.Candidates | zega/src/index.rs:256-281 | for three characters or more exactly the ids with every gram, otherwise all; for postings that are those of some texts, never fewer than match |
| Indexes.AgreeingTreesAreEqual | zega/src/index.rs:333-353 | there is one range index of given nodes, so any run of writes leaves what a rebuild would |
| Indexes.DeclaredIndexes.Insert | zega/src/index.rs:355-376 | every declared index is what building it from the current nodes gives |
| Indexes.DeclaredIndexes.Remove | zega/src/index.rs:378-404 | the same after a removal |
| Indexes.DeclaredIndexes.Build | zega/src/index.rs:333-353 | a new index agrees with the nodes stored before it |
| Indexes.DeclaredIndexes.Sync | zega/src/graph/mod.rs:382-398 | afterwards exactly the declared indexes exist, old and new in agreement |
| Indexes.DeclaredIndexes.RangeCandidates | zega/src/index.rs:408-427 | exactly the nodes of the given types with a key in the interval, or none when a type has no index |
| Indexes.DeclaredIndexes.TextCandidates | zega/src/index.rs:437-455 | exactly the nodes of the given types whose text has every gram of a probe of three characters or more, all with a text for a shorter one; so every match |
| Indexes.RowsAreCandidates | zega/src/v2.rs:2153-2236 | a row that meets all conditions on a field is in the interval its candidates are taken from |
| Filters.Select | zega/src/v2.rs:2266-2324 | whatever the condition and the indexes, the rows are exactly the stored nodes of the types that the condition accepts |
| Filters.AcceptedIsFound | zega/src/v2.rs:2148-2152 | of any And/Or tree of tests, every row of the types that it accepts is in the set, whenever there is one |
| Filters.Filter | zega/src/v2.rs:2153-2250 | there is a set exactly when an index applies (to some term of a conjunction, to every branch of a disjunction), and exactly which ids are in it |
| Filters.FilterAnd | zega/src/v2.rs:2191-2237 | what the terms of a conjunction find together, with ranges of one field joined and walks put off, is what they find one by one |
| Filters.SortTerms | zega/src/v2.rs:2196-2222 | one pass splits the terms into joined bounds, walks and the set of the rest, losing nothing |
| Filters.Join | zega/src/v2.rs:2207-2215 | the bounds hold what they held and the new interval holds |
| Filters.InBoth | zega/src/v2.rs:2207-2215 | the nodes of a joined interval are those of both |
| Filters.AndTerms | zega/src/v2.rs:2128-2137 | nested conjunctions are opened in order |
| Filters.TermsAccept | zega/src/v2.rs:2551-2559 | a conjunction accepts a row only if each of its opened terms does, or is a walk that names nodes of the others |
| Filters.AddPropIndexes | zega/src/graph/mod.rs:499-519 | the spatial index goes on holding exactly the points of the stored nodes, and the declared indexes what a build gives |
| Filters.RemovePropIndexes | zega/src/graph/mod.rs:523-536 | the same after a removal |
| Bundles.ResolvedBytesMatch | zega/src/bundle.rs:243-270 | what is resolved has the hash asked for, and a changed file is never taken for it |
| Bundles.VerifiedReferencesResolve | zega/src/bundle.rs:243-270 | every scanned reference of a verified bundle resolves, by one of its subject's paths or by none |
| Bundles.OnlyTheFirstReferenceIsLocal | zega/src/bundle.rs:480-493 | of equal references in a subject only the first is ever satisfied by a path |
| Bundles.ResolvesInOrder | zega/src/bundle.rs:243-270 | a local file with the hash first, then an asset, a remote, a changed file, nothing; an error exactly for a bad hash or a URL that names no path |
| Bundles.StrippedSubject | zega/src/bundle.rs:770-808 | stripping leaves every subject's scanned references and no scanned path |
| Bundles.ScanElsewhere | zega/src/bundle.rs:400-452 | the facts of a graph do not depend on the computer |
| BundleStore.CheckReferences | zega/src/bundle.rs:458-504 | passes exactly when every scanned reference has a local path, an asset or a remote; the counts are right and no stale path is named twice |
| BundleStore.MarkLocal | zega/src/bundle.rs:480-493 | which references a subject's paths satisfy, and which paths are stale |
| BundleStore.StripGraph | zega/src/bundle.rs:770-818 | dropping by property name drops exactly the scanned paths |
| BundleStore.Bundle.Verify | zega/src/bundle.rs:300-329 | passes exactly for a tidy bundle whose assets hash to their names and whose references hold |
| BundleStore.Bundle.PutAsset | zega/src/bundle.rs:218-240 | bytes land under their hash, and never over what is there |
| BundleStore.Bundle.CopyLocalAssets | zega/src/bundle.rs:587-603 | every reference with a matching local path gets an asset, nothing is overwritten, and every asset still hashes to its name |
| BundleStore.Bundle.PackWith | zega/src/bundle.rs:527-583 | fails for a bundle that does not verify; with local files included never fails for one that does; without, fails as local-only exactly when a reference needs a path |
| BundleStore.PackedIsSelfContained | zega/src/bundle.rs:527-583 | what was packed verifies on a computer without any of the files, every scanned reference an asset or a remote, and no path that the scan sees is left |
| BundleContents.NoPathShipsExactly | zega/src/bundle.rs:511-522 | no path ships, current or old, if and only if every current one is one the scan sees, the histories hold none or the scan saw one, and the shared log holds none but under a removed name |
| BundleContents.NoFileUrlShipsExactly | zega/src/bundle.rs:521-522 | the same of any file URL, in a field of whatever type |
| BundleContents.UnscannedPaths | zega/src/bundle.rs:400-452 | of the paths a graph holds the scan sees exactly the plain strings declared as plain paths, and not as references too, under the first label; without a schema the plain strings |
| BundleContents.UnscannedReferences | zega/src/bundle.rs:400-452 | of the references a graph holds the scan sees exactly the plain strings declared as plain references under the first label; without a schema the plain strings |
| BundleContents.ScannedIsHeld | zega/src/bundle.rs:733-762 | what is scanned as a path or a reference is one by its declared type or its shape |
| BundleContents.UnitOfSpellings | zega/src/lang/mod.rs:1874-1901 | plain, temporal and list declarations of a unit, in each of the seven forms the parser accepts, are checked as that unit |
| BundleContents.PackedHolds | zega/src/bundle.rs:770-818 | packing removes exactly the values that are scanned as paths, all histories if there is one, and the removed names from the shared log |
| BundleContents.PackedElements | zega/src/bundle.rs:770-818 | every element stays in its place with its id and labels, and loses exactly its scanned paths |
| BundleContents.NothingToStripExactly | zega/src/bundle.rs:770-774 | the graph ships as it is exactly when no current value is scanned as a path |
| BundleContents.APathInATemporalFieldShips | zega/src/bundle.rs:414-427 | a document whose temporal source is a path now and in its history packs as it is |
| BundleContents.AListOfPathsShips | zega/src/bundle.rs:733-762 | a list of paths packs as it is, with a schema and without |
| BundleContents.APathOfASecondTypeShips | zega/src/bundle.rs:433-437 | a path declared only under a second label packs as it is |
| BundleContents.AnOldPathShips | zega/src/bundle.rs:775-818 | a graph that packs as it is, with a path in its history and none in it now |
| BundleContents.VerifiedReferencesArePresentExactly | zega/src/bundle.rs:454-504 | in a graph that verifies every reference is at a path of its subject, an asset or a remote if and only if those are that the scan does not see |
| BundleContents.PackedReferencesArePresentExactly | zega/src/bundle.rs:527-583 | on a computer without the files every reference of what was packed has its bytes if and only if those are assets or remotes that the scan does not see |
| BundleContents.ADanglingReferenceVerifies | zega/src/bundle.rs:414-427 | a bundle with no asset and no remote verifies with a temporal reference, or one in a list, that is nowhere |
| EditDistance.DistanceIsShortestScript | browser/components/schema.js:34-53 | the distance is the least number of insertions, deletions and replacements, anywhere in the word, that turn one word into the other |
| EditDistance.RowDistance | browser/components/schema.js:39-49 | the single overwritten row ends with that distance |
| EditDistance.Closest | browser/components/schema.js:35-53 | the first candidate of least distance, or nothing when that is beyond the tolerance or the word is not comparable |

## Left out

- CheckpointSteps.EveryWriteSurvives: covers runs in which every process kill finds the log settled; for the other kills it is false, and `CheckpointKills.KillsAreSafeExactlyWhenSettled` gives the exact condition. Power cuts are unrestricted.
- CheckpointSteps.StepKeeps: the same of a step that is a kill.
- CheckpointSteps.EveryWriteSurvivesAKill: the same of the kills before the last.
- CheckpointKills.EveryCutIsSafe: the same.
- CheckpointAnswers.EveryAnswerIsKept: the same.
- CheckpointGaps.AcknowledgedStays: stated while no import's entry is in flight, because an import replaces the graph by design.
- Triggers.TwiceTheLogAtMost: for sessions with no import while a checkpoint waits, without which it is false. It does not count the bytes of graphs whose checkpoint failed, nor those of imported files, and takes as a premise that a graph grows by at most what was logged, as the comment it models does.
- Triggers.TwiceTheLogAndLateImports: the same of failed checkpoints, imported files and growth; a checkpoint that a caller takes without asking whether one is due is not in the session.
- HistRoundTrip.RoundTrip: takes bincode as an inverse pair with non-empty output for property maps, and encodings shorter than 2^64 bytes.
- LazyHistories.Store.Bytes: the same assumptions.
- LazyHistories.Store.Change: the change is a function applied to the histories, where the program hands out a mutable reference.
- JournalLosses.RollBackRestores: for statements whose creations are given free ids, the exact condition for each of them, and give relationships existing ends, which the statement executor sees to before it calls the journal.
- JournalLosses.RunUndoes: the same.
- JournalIntervals.RunKeepsOpen: for statements in which no creation breaks it, by the exact condition of `CreateRelKeepsOpenExactly`.
- JournalObjects.RunAtomically: for graphs whose relationships have both ends and whose ids are below their counters, which every statement keeps; the write-ahead log's answer and the linked-data record are parameters.
- JournalTime.StepKeepsLive: under one schema for all statements; after a schema change old histories of fields no longer temporal are not the live values.
- JournalStatements.StatementsKeepLive: the same.
- JournalReplay.RunLogs: linked-data metadata in the log replays to nothing, since only the relationships of mirror nodes are modelled of it.
- JournalErrors.WriteFailsExactly: for histories that decode; otherwise every write that needs them fails with the decoding error.
- Locations.SpatialIndex.Candidates: degrees are real numbers rounded by any monotone function that keeps zero; NaN never gets into a point and is not modelled.
- Locations.GridIsTheParts: for a rounding that keeps the grid lines and their fractions, as binary floating point does for these widths.
- Filters.AcceptedIsFound: a walk's own candidates are taken to include every row it can be made from, and those of a disc every row in it; `and_group` is taken to make each walk it makes together.
- Filters.Select: current rows; queries as of a time use no index. The early stop at a limit, the nearest-first search and the budget of work are not modelled.
- Ranges.SatisfiedIsIn: the cast of an integer to a float is any monotone function without NaN; JSON numbers are as the executor makes them.
- BundleContents.NoPathShipsExactly: a value in the histories or the shared log is a path by its kind and property name, as a current one is; how the shared log names kinds, and the metadata of linked mirrors beside it, are not modelled.
- BundleStore.Bundle.PackWith: local files do not change while packing; reading errors other than a missing file are not modelled.
- HistCodec.EncodeOut: bincode does not refuse to serialize a value here; the source passes such an error on.
- HistCodec.PutRelationships: the loops over relationships write from columns that are already projected; the source projects and writes in one loop per column.
- CheckpointStore.Store.Checkpoint: the interleaving with writers is given as lists of their steps; an import cannot run because of the import lock.
- The directory's own creation, the entry of a `wal.bin` that was just created, and a crash inside the rename that settles a rotation are taken as durable.
- An entry torn by a crash is one that did not survive; a torn entry in the middle of a log, which the log reader reports as corruption, is not modelled. A failed sync that leaves the log in doubt poisons it until the next open, as in the source.
- `ReplaceLinkedGraph` entries are treated as `ReplaceGraph`; the version mark an import writes into the log's header is not modelled.
- Group commit threads, condition variables and the poll interval: only the steps they order.
- Spill.Buffer.Write: short and failing writes of the staging file, and flush, are not modelled.
- The access counter of the histories and the clock; reading a lifetime from the live node where none is on record (`visible_with`).
- Unique and vector indexes, node shapes and slots; the id set inside indexes is a mathematical set, since `IdSets` proves it is one.
- The order in which a hash set or a hash map is iterated: results do not depend on it where they are proved.
- `sort_by_key` on posting lists only picks the shortest; ties are arbitrary here.
- Text folding, similarity and the tests over time: tests that no index answers are parameters.
- Tar and gzip streams, unpacking, entry modes and size caps of bundles; the sync protocol; servers, command line, browser views.
- Distances on the sphere and `Bounds::radius`.
- `typeOf`, `describe`, JSON pointers and the schema walker of the browser component; lower-casing is a parameter.
