# hapcli: a verified model of its stateful core

hapcli is a Rust workspace with an AI chat assistant at its centre. This project models the
six parts of it whose guarantees do not follow from reading one function, and proves those
guarantees in Dafny 4.11:

* the **background task scheduler** (`TaskModel`, `TaskRuntime`, `TaskSystem`): the shared
  task table as a class, and every interleaving of its callers and workers as a transition
  system whose steps are the table's critical sections;
* the **chat store** (`ChatMessage`, `MessageCodec`, `StableSort`, `RoundSummaries`,
  `TurnCount`, `ChatStore`, `ChatStoreLaws`, `ChatStoreLoad`, `ChatStoreHistory`,
  `ProjectionClock`): rows,
  index and metadata changed together in one transaction, rows guarded by versions that a
  compare-exchange clock issues, summaries replayed on load, and turn counting under
  compaction;
* **durable atomic file replacement** (`FileSystem`, `AtomicFile`, `AtomicWriters`): a file
  system with a visible and a durable layer, the operations with a possible error and a
  possible crash after every step, and any number of concurrent writers;
* the **ACP adapter's run registry** (`RunRegistry`): prompts that supersede, cancel and
  clean up after each other;
* the **single-flight provider-key reads** (`KeyReads`);
* the **budgeted and incremental traversals** (`Json`, `JsonBounds`, `Condense`): the
  mutable-budget JSON walks, the two live-handle checks, and the condensing of old tool
  results.

`dafny verify dfyconfig.toml` checks all of it. Each module that works by steps has the same
plan: the operations as methods of a class, tied by their `ensures` to functions or
predicates on values; a transition relation built from those same functions; one inductive
invariant; and theorems over whole runs (`IsRun(states, steps)`) that follow from it.

## What is assumed

* Critical sections are atomic, and so is a database transaction. The executor's answers, the
  wall clock, the fault of each system call and the JSON parser are arbitrary.
* Task ids, run ids and slot identities are never reused (random UUIDs and heap objects in the
  source). A message id belongs to one conversation for good; `Home` names it. Row keys are
  global in the database, so the index could not partition the rows otherwise.
* Codecs are parameters; round trips assume that each pair is inverse (`Faithful`).
* A crash keeps synced file data, may put anything in place of unsynced data, and keeps any
  subset of the directory changes not yet synced, each rename as a whole. Concurrent writers
  do not choose a destination that looks like a temporary file of their own process.

## Where the code does not promise what one might expect

* The step that starts a run looks neither at the task's state nor at its run limit. The limit
  holds because the worker's position implies it (`TaskSystem.PrepareKeepsInv`).
* The two live-handle checks differ on an array directly inside an array
  (`JsonBounds.NestedArrayHidesHandle`); `JsonBounds.ArgumentCheckIsExact` says exactly which
  handles the argument-level check sees.
* A new prompt cancels the run it supersedes only after the registry lock is released. In
  that window the old run is neither registered nor cancelled
  (`RunRegistry.SupersededRunIsUncancelledForAWhile` exhibits it). The window is exactly the
  time its successor still owes it a cancel: outside it, and only there, every unfinished run
  is registered or cancelled (`RunRegistry.NoRunIsForgotten`).
* `durable_remove` of an absent file syncs nothing, so a removal that was still pending may be
  undone by a crash (`AtomicFile.RemovedFileMayComeBack`). Its success is durable if and only
  if the file was there or no entry for it, on disk or pending, could survive a crash
  (`AtomicFile.AtomicFiles.DurableRemove`).
* Two versions coincide if and only if the clock has reached `i64::MAX`.
* A round summary is dropped when the message's `pendingSummaries` entry is not an array and
  the round is unknown (the `CannotPend` case of `RoundSummaries.LastSummaryWins`).
* An unloaded conversation that was never stored keeps the count it claims, right if and only
  if that is 0 (`ChatStoreLaws.UnknownUnloadedCount`).
* Message content survives storage if and only if it has no complete thinking block with a
  thought that is not blank and, unless the message carries metadata of its own, does not
  itself read as an anchor (`MessageCodec.RowRoundTrip`).

## Model

| member | source | states |
|---|---|---|
| `TaskModel.Validate` | crates/hapcli-ai-tasks/src/validation.rs:45-88 | Accepts exactly specs with non-blank owner and tool, arguments that parse, fit the size limit and hold no handle key at any depth, and, unless one-shot, an interval of 5 to 86400 seconds and 1 to 10000 runs; which error names which violation. |
| `TaskModel.IncrementalDecisionIsHistoryRule` | crates/hapcli-ai-tasks/src/runtime.rs:290-345 | Deciding from `last_fingerprint` and `had_failure` agrees with a rule over the whole result history, and the updated fields summarise the extended history. |
| `Json.PointerFollowsPath` | crates/hapcli-ai-tasks/src/runtime.rs:416-421 | The pointer of a field condition leads exactly where its keys and indices lead, whatever characters the keys contain. |
| `Text.ContainedPart` | crates/hapcli-ai-tasks/src/runtime.rs:415-415 | A text contains another only if it is that text with something before and after it. |
| `Text.ContainsItsParts` | crates/hapcli-ai-tasks/src/runtime.rs:415-415 | And whenever it is. |
| `TaskRuntime.BackgroundTaskRuntime.CountActive` | crates/hapcli-ai-tasks/src/runtime.rs:102-107 | Counts exactly an owner's non-terminal tasks. |
| `TaskRuntime.BackgroundTaskRuntime.FindOldestTerminal` | crates/hapcli-ai-tasks/src/runtime.rs:111-117 | Yields a terminal task with the least update time, or nothing if and only if no task is terminal. |
| `TaskRuntime.BackgroundTaskRuntime.Create` | crates/hapcli-ai-tasks/src/runtime.rs:77-151 | Stores a queued task that shows the request, evicting the oldest terminal one at capacity; each rejection has its exact cause and changes neither table nor events. |
| `TaskRuntime.BackgroundTaskRuntime.Cancel` | crates/hapcli-ai-tasks/src/runtime.rs:153-175 | True exactly for a present, non-terminal task, which becomes Cancelled; anything else changes nothing. |
| `TaskRuntime.BackgroundTaskRuntime.CancelOwner` | crates/hapcli-ai-tasks/src/runtime.rs:177-189 | Exactly the owner's non-terminal tasks become Cancelled, every other record stays as it was, and their number is returned. |
| `TaskRuntime.BackgroundTaskRuntime.CancelAll` | crates/hapcli-ai-tasks/src/runtime.rs:191-197 | Exactly the non-terminal tasks become Cancelled, terminal ones keep their records, and their number is returned. |
| `TaskRuntime.BackgroundTaskRuntime.PrepareExecution` | crates/hapcli-ai-tasks/src/runtime.rs:252-274 | Hands out an execution exactly for a task that is not cancelled: its id, its own tool and arguments and the new run count; the task is marked Running. |
| `TaskRuntime.BackgroundTaskRuntime.ApplyExecutionResult` | crates/hapcli-ai-tasks/src/runtime.rs:276-349 | Records a result unless the task is gone or cancelled; the worker is told to wait exactly when the task is left Waiting, and then for the mode's own interval. |
| `TaskSystem.PrepareKeepsInv` | crates/hapcli-ai-tasks/src/runtime.rs:252-274 | Starting a run keeps the invariant that bounds and numbers runs, although the step checks only the cancelled flag. |
| `TaskSystem.NextKeepsInv` | crates/hapcli-ai-tasks/src/runtime.rs:230-349 | Every step keeps the invariant tying each worker's position to its task's state and history. |
| `TaskSystem.ExecutionsAreNumberedAndBounded` | crates/hapcli-ai-tasks/src/runtime.rs:230-274 | In every interleaving the executions of a task carry its id, tool and arguments and the run numbers 1, 2, 3, ...; there are at most one, or the mode's run limit, and the 32-bit counter never saturates. |
| `TaskSystem.SpecIsKept` | crates/hapcli-ai-tasks/src/runtime.rs:86-97 | What a task was created for, and when, never changes, from creation to beyond eviction. |
| `TaskSystem.RecordsMatchTheRequest` | crates/hapcli-ai-tasks/src/runtime.rs:230-349 | From creation on every execution and every retained record carries the request's tool, arguments, owner and mode, the record its times of creation and last change, and a sleeping worker the requested interval. |
| `TaskSystem.CapacityIsRespected` | crates/hapcli-ai-tasks/src/runtime.rs:100-136 | In every reachable state at most 128 tasks are retained and at most 32 of an owner's are non-terminal. |
| `TaskSystem.TerminalStatesAbsorb` | crates/hapcli-ai-tasks/src/runtime.rs:393-400 | A terminal task's whole record stays as it is until eviction, no run starts, no result is recorded, no cancel is accepted, and an evicted task never returns. |
| `TaskSystem.CancellationIsFinal` | crates/hapcli-ai-tasks/src/runtime.rs:153-175 | `cancel` returns true at most once per task; afterwards no execution starts and no in-flight result is recorded, wake-up or not. |
| `TaskSystem.OnlyOldestTerminalIsEvicted` | crates/hapcli-ai-tasks/src/runtime.rs:111-136 | Only a successful `create` on a full table removes a task, and it removes a Completed, Failed or Cancelled one with the least update time among those. |
| `TaskSystem.StopsExactlyByHistoryRule` | crates/hapcli-ai-tasks/src/runtime.rs:290-345 | An uncancelled task is finished if and only if its results satisfy the stopping rule, it stopped at the first run that did, and it is Failed exactly when that run erred and the condition did not hold. |
| `ProjectionClock.VersionsAreDistinctAndIncreasing` | crates/hapcli-ai/src/persistence.rs:161-176 | Under any number of threads the versions are positive, no smaller than the caller's clock, each the clock reading or the successor of the version before it, increasing in exchange order, and equal only at `i64::MAX`. |
| `ProjectionClock.FailuresArePaidFor` | crates/hapcli-ai/src/persistence.rs:165-175 | A call loses at most as many exchanges as other threads have won since it began, and it can lose the next only if one was won since its last read. |
| `TurnCount.CountTurns` | crates/hapcli-ai/src/chat.rs:5-48 | The saturating loop returns the exact count over all nested anchors, capped once at `usize::MAX`. |
| `TurnCount.OneMessageCounts` | crates/hapcli-ai/src/chat.rs:5-48 | What one message counts for, told from its data: a conversation summary's user count, an anchor's user count, complete snapshot or halved physical count, or one for a user. |
| `TurnCount.TurnCountOfConcat` | crates/hapcli-ai/src/chat.rs:5-48 | Counting turns concatenation into saturating addition. |
| `TurnCount.CompactionPreservesTurns` | crates/hapcli-ai/src/chat.rs:5-48 | Replacing any stretch by one anchor carrying its user count or complete snapshot keeps the total. |
| `TurnCount.RepeatedCompactionPreservesTurns` | crates/hapcli-ai/src/chat.rs:5-48 | So does any number of compactions, anchors nested in anchors. |
| `TurnCount.LegacyCountIsExact` | crates/hapcli-ai/src/chat.rs:30-44 | The halved physical count of old anchors is exact for histories in which users and assistants alternate, a user first. |
| `StableSort.SortSorts` | crates/hapcli-ai/src/persistence.rs:149-149 | The timestamp sort leaves no later message before an earlier one. |
| `StableSort.SortIsStable` | crates/hapcli-ai/src/persistence.rs:876-876 | For every timestamp the sort keeps exactly the elements that have it, in their original order; so it is a stable permutation. |
| `StableSort.SortOrder` | crates/hapcli-ai/src/persistence.rs:149-149 | Sorting lists the elements in the one order of their positions by timestamp and then by place. |
| `RoundSummaries.ApplyRoundSummaries` | crates/hapcli-ai/src/persistence.rs:900-920 | The in-place loop computes the replay of all summaries, in order. |
| `RoundSummaries.TargetIsExact` | crates/hapcli-ai/src/persistence.rs:900-920 | A summary goes to the first message of the id it names, or, when there is none, to the first assistant message whose turn has the round, or nowhere. |
| `RoundSummaries.SummaryIsRecorded` | crates/hapcli-ai/src/persistence.rs:819-878 | Exactly which transcript entries record a round summary, with which target, round and text, told from their payload keys. |
| `RoundSummaries.MetadataIsCollected` | crates/hapcli-ai/src/persistence.rs:880-898 | A summary's metadata holds exactly the payload's entries under the eight metadata keys. |
| `RoundSummaries.UpsertTouchesOnlyItsRound` | crates/hapcli-ai/src/persistence.rs:922-1030 | An upsert leaves every other round, every pending entry of another round and the rest of the turn as they were. |
| `RoundSummaries.NewTurnDescribesMessage` | crates/hapcli-ai/src/persistence.rs:931-954 | A message without a turn gets a complete, empty one with its own id and content. |
| `RoundSummaries.UpsertsSettle` | crates/hapcli-ai/src/persistence.rs:922-1030 | After any sequence of upserts every round mentioned shows its last summary and its last given metadata. |
| `RoundSummaries.ReplayIsIdempotent` | crates/hapcli-ai/src/persistence.rs:900-1030 | Replaying the same summaries once more changes nothing, whatever the messages. |
| `RoundSummaries.LastSummaryWins` | crates/hapcli-ai/src/persistence.rs:900-1030 | Every summary that finds a message ends, unless a later one for the same round and message follows, attached with its text exactly if the turn has the round, pending with its round, text and metadata exactly if it has not and its list is usable, never both. |
| `RoundSummaries.ReplayKeepsOneEntryPerRound` | crates/hapcli-ai/src/persistence.rs:986-1030 | Pending holds at most one entry per round if it did at the start. |
| `MessageCodec.DecodeOfEncodedAnchor` | crates/hapcli-ai/src/persistence.rs:1111-1123 | Decoding an encoded anchor gives back content and metadata. |
| `MessageCodec.AnchorReads` | crates/hapcli-ai/src/persistence.rs:1117-1123 | Exactly what reads as an anchor: the header, one line that decodes as metadata, and the rest. |
| `MessageCodec.ThinkingBlock` | crates/hapcli-ai/src/persistence.rs:1157-1179 | The first thinking block of a text is taken out of it and its trimmed thought kept unless blank. |
| `MessageCodec.NoThinkingBlock` | crates/hapcli-ai/src/persistence.rs:1157-1179 | A text without an opening tag, or with one that is never closed, is left alone. |
| `MessageCodec.ParsedThinking` | crates/hapcli-ai/src/persistence.rs:1157-1179 | When a thought was found, the rest of the text is trimmed and the thoughts are joined by blank lines. |
| `MessageCodec.TrimTakesBlankEnds` | crates/hapcli-ai/src/persistence.rs:1157-1179 | Trimming takes blank text off both ends and leaves none there. |
| `MessageCodec.RoleNames` | crates/hapcli-ai/src/persistence.rs:1093-1109 | The role names on disk, and that an unknown name reads as a user. |
| `MessageCodec.UnpackedOfPacked` | crates/hapcli-ai/src/persistence.rs:1181-1203 | A context buffer is stored compressed whenever the codec compresses it, and comes back either way. |
| `MessageCodec.RowRoundTrip` | crates/hapcli-ai/src/persistence.rs:1048-1091 | Id, role, timestamp, context, references and an existing turn always survive conversion to a row and back; content and metadata if and only if the content is plain. |
| `MessageCodec.ThoughtsSurvive` | crates/hapcli-ai/src/persistence.rs:655-696 | Thoughts of an assistant message without a turn come back; where the turn has none, those in the content are taken out of it. |
| `MessageCodec.LegacyTurnDescribesMessage` | crates/hapcli-ai/src/persistence.rs:1125-1144 | The turn made for such a message has its id and its content. |
| `ChatStore.ChatPersistenceStore.DeleteConversationRows` | crates/hapcli-ai/src/persistence.rs:486-518 | Removes a conversation's metadata, index entries and every row its indexes list. |
| `ChatStore.ChatPersistenceStore.DeleteMissing` | crates/hapcli-ai/src/persistence.rs:202-221 | Deletes all stored conversations the new state does not have, in any order. |
| `ChatStore.ChatPersistenceStore.WriteWindow` | crates/hapcli-ai/src/persistence.rs:547-580 | Writes each retained message by one version-guarded upsert. |
| `ChatStore.GuardIsExact` | crates/hapcli-ai/src/persistence.rs:1213-1222 | The guard, case by case: a versioned row replaces what is not newer, a row without a version never replaces a versioned one, else the later timestamp wins. |
| `ChatStore.ChatPersistenceStore.ReplaceConversationMessages` | crates/hapcli-ai/src/persistence.rs:520-589 | Drops rows that left the window, writes the last 2000, replaces the index list and stores its length as the count. |
| `ChatStore.ChatPersistenceStore.SaveConversation` | crates/hapcli-ai/src/persistence.rs:223-251 | Stores metadata and index; an unloaded conversation keeps its stored counts and messages. |
| `ChatStore.ChatPersistenceStore.SaveState` | crates/hapcli-ai/src/persistence.rs:182-257 | The whole transaction: delete what is gone, then save each conversation in turn. |
| `ChatStore.ChatPersistenceStore.LoadConversation` | crates/hapcli-ai/src/persistence.rs:117-159 | Absent, an error, or the stored id, title and time with the messages of `LoadedMessages` and counts that match them. |
| `ChatStoreLaws.EmptyIsCoherent` | crates/hapcli-ai/src/persistence.rs:353-389 | A new database satisfies the coherence that every save keeps. |
| `ChatStoreLaws.DeleteRemovesExactlyOwnRows` | crates/hapcli-ai/src/persistence.rs:486-518 | Deleting conversations removes exactly their own rows, leaves all others as they were, and keeps the database coherent. |
| `ChatStoreLaws.SaveKeepsCoherent` | crates/hapcli-ai/src/persistence.rs:182-257 | A save keeps rows, index and counts coherent and stores exactly the conversations it was given. |
| `ChatStoreLaws.SavesKeepCoherent` | crates/hapcli-ai/src/persistence.rs:202-252 | After any sequence of saves the rows are the disjoint union of the index lists, no id dangles, every row names its own id and conversation, no list exceeds 2000, every count is its list's length. |
| `ChatStoreLaws.SaveKeepsTranscripts` | crates/hapcli-ai/src/persistence.rs:202-239 | A save leaves the transcript of every conversation it keeps as it was, and removes exactly the entries listed by one that is gone. |
| `ChatStoreLaws.SaveStoresMeta` | crates/hapcli-ai/src/persistence.rs:223-251 | Title, time and both counts after a save, for loaded and unloaded, known and unknown conversations. |
| `ChatStoreLaws.UnknownUnloadedCount` | crates/hapcli-ai/src/persistence.rs:223-243 | The stored count of an unloaded conversation that was not stored before is right if and only if it claimed 0. |
| `ChatStoreLoad.LoadIsSortedAndStable` | crates/hapcli-ai/src/persistence.rs:131-149 | Loaded messages are in time order, and for every timestamp they are exactly the listed rows that have it, in index order. |
| `ChatStoreLoad.LoadFailsExactly` | crates/hapcli-ai/src/persistence.rs:134-145 | A load fails if and only if a listed row is there and its context buffer does not decompress. |
| `ChatStoreLoad.LoadShowsLatestSummary` | crates/hapcli-ai/src/persistence.rs:150-152 | A loaded message shows, attached or pending, the text of the latest entry (by timestamp, then index position) that its transcript records for a round and that goes to it. |
| `ChatStoreHistory.UnloadedConversationsAreUntouched` | crates/hapcli-ai/src/persistence.rs:223-251 | A save leaves the rows, index and count of every unloaded conversation as they were. |
| `ChatStoreHistory.SaveRow` | crates/hapcli-ai/src/persistence.rs:562-580 | Through a whole save a retained message's row is changed by exactly one guarded write of its own snapshot. |
| `ChatStoreHistory.HighestVersionStays` | crates/hapcli-ai/src/persistence.rs:1205-1222 | Whatever the order of distinct positive versions, the highest stays, unless the old row is newer than all of them. |
| `ChatStoreHistory.HighestSnapshotWins` | crates/hapcli-ai/src/persistence.rs:562-580 | The same for a message carried by any sequence of whole saves. |
| `ChatStoreHistory.EffectiveVersionNeverDecreases` | crates/hapcli-ai/src/persistence.rs:1205-1222 | Along saves that carry a message its row's effective version never decreases, whatever the versions. |
| `ChatStoreHistory.NewerVersionIsFresh` | crates/hapcli-ai/src/persistence.rs:1213-1222 | A positive version no smaller than any stored effective one passes every guard. |
| `ChatStoreHistory.SaveThenLoad` | crates/hapcli-ai/src/persistence.rs:117-159 | Saving a loaded, time-ordered conversation with a fresh version and loading it returns exactly its last 2000 messages (all, if fewer) in order, content unchanged if and only if plain. |
| `FileSystem.CrashOutcomes` | crates/hapcli-atomic-file/src/platform.rs:8-11 | A path may read as given after some crash if and only if one of its candidate entries leads to a file that may. |
| `FileSystem.UnsyncedDataMayBeLost` | crates/hapcli-atomic-file/src/lib.rs:38-41 | Data written and not yet synced may be anything after a crash. |
| `FileSystem.SyncDirPins` | crates/hapcli-atomic-file/src/platform.rs:50-53 | A directory sync leaves exactly one possible entry for each path in it, the visible one. |
| `AtomicFile.TempNamesDiffer` | crates/hapcli-atomic-file/src/temporary.rs:32-36 | A temporary name determines the file, the process and the sequence number it was drawn for. |
| `AtomicFile.AtomicFiles.CreateTemporaryFile` | crates/hapcli-atomic-file/src/temporary.rs:20-53 | Succeeds exactly when one of at most 128 successive names is free before an open fails otherwise, with that name; which error means which obstacle; errors change nothing. |
| `AtomicFile.AtomicFiles.FillTemporary` | crates/hapcli-atomic-file/src/lib.rs:37-43 | Writing and syncing never disturbs the destination; the first fault is the one reported, and without one the full contents are synced. |
| `AtomicFile.AtomicFiles.ReplaceAndSyncParent` | crates/hapcli-atomic-file/src/lib.rs:79-82 | Crash-safe rename; success makes the new contents durable. |
| `AtomicFile.AtomicFiles.FillAndReplace` | crates/hapcli-atomic-file/src/lib.rs:37-52 | Reports the first fault, if any; without one the contents are durable; the temporary name is gone unless its removal fails; an error other than the final sync leaves the destination as it was. |
| `AtomicFile.AtomicFiles.DurableWrite` | crates/hapcli-atomic-file/src/lib.rs:25-53 | A crash after any step leaves the destination as a crash before the call could have, or exactly the new contents; the call succeeds if and only if nothing fails and a temporary name is free, and then durably; an error before the rename leaves the destination unchanged; no other path changes unless cleanup fails too. |
| `AtomicFile.OldOrNew` | crates/hapcli-atomic-file/src/lib.rs:25-53 | For a durable destination: exactly its old contents (or absence) or exactly the new ones. |
| `AtomicFile.AtomicFiles.DurableReplace` | crates/hapcli-atomic-file/src/lib.rs:56-68 | Exactly when it succeeds and which error it reports otherwise; crash-safe throughout; success durably moves the source's contents, and the source name stays only when both names were the same file. |
| `AtomicFile.AtomicFiles.DurableRemove` | crates/hapcli-atomic-file/src/lib.rs:71-77 | Exactly when it succeeds; a crash after any step leaves the path as a crash before the call could have, or absent; success is durable if and only if the file was there or could not have come back; removing an absent file changes nothing. |
| `AtomicFile.AbsentForGood` | crates/hapcli-atomic-file/src/lib.rs:71-77 | An absent path stays absent through every crash if and only if no entry for it, on disk or pending, could survive one. |
| `AtomicFile.RemovedFileMayComeBack` | crates/hapcli-atomic-file/src/lib.rs:71-77 | A state in which removing an absent file succeeds and a crash brings the file back. |
| `AtomicWriters.NextKeepsInv` | crates/hapcli-atomic-file/src/lib.rs:25-53 | Every system call of every concurrent writer keeps the invariant on files, temporary names and destinations. |
| `AtomicWriters.CrashLeavesOldOrFullyWritten` | crates/hapcli-atomic-file/src/lib.rs:33-52 | With any number of concurrent writers a crash leaves the old contents or one write's full contents; after a success, for certain those of the successful write or of a later one. |
| `AtomicWriters.SuccessSurvivesCrashes` | crates/hapcli-atomic-file/src/lib.rs:37-52 | No acknowledged write is lost: a crash after writer W's success leaves W's contents or those of a writer that replaced the path after W. |
| `AtomicWriters.LatestReplacementIsVisible` | crates/hapcli-atomic-file/src/lib.rs:79-82 | What programs read at a path is the full contents of the latest replacement. |
| `AtomicWriters.TemporaryPathsAreExclusive` | crates/hapcli-atomic-file/src/temporary.rs:20-53 | Writers at work at once never share a temporary path or file. |
| `RunRegistry.ActiveRuns.Register` | crates/hapcli-acp-adapter/src/codex.rs:255-267 | Registers the run for its session and yields the superseded one. |
| `RunRegistry.ActiveRuns.CancelActiveRun` | crates/hapcli-acp-adapter/src/lib.rs:293-303 | Unregisters the session's run, if any, and sends exactly that run a cancel. |
| `RunRegistry.ActiveRuns.CleanupActiveRun` | crates/hapcli-acp-adapter/src/lib.rs:305-310 | Unregisters the session's run only when it is the caller's own. |
| `RunRegistry.NoRunIsForgotten` | crates/hapcli-acp-adapter/src/codex.rs:255-282 | A run between registration and cleanup is registered or was sent a cancel if and only if no successor still owes it one, and never both; a registered run is unfinished and its session's latest. |
| `RunRegistry.SupersededRunIsUncancelledForAWhile` | crates/hapcli-acp-adapter/src/codex.rs:257-267 | A run of the system that ends with a superseded run neither registered nor cancelled. |
| `RunRegistry.OneLiveRunPerSession` | crates/hapcli-acp-adapter/src/claude.rs:55-78 | While no supersession in a session is half done, at most one of its unfinished runs has not been cancelled, whatever goes on in other sessions. |
| `KeyReads.ProviderKeyStore.BeginProviderKeyRead` | crates/hapcli-ai/src/key_store.rs:135-150 | Joins the read in flight as a waiter, or becomes the owner of a new, empty slot. |
| `KeyReads.ProviderKeyStore.CacheKey` | crates/hapcli-ai/src/key_store.rs:62-66 | Keeps a key that was found and nothing else; slots and map stay. |
| `KeyReads.ProviderKeyStore.Finish` | crates/hapcli-ai/src/key_store.rs:271-278 | Publishes the result in this one slot; map and cache stay. |
| `KeyReads.ProviderKeyStore.FinishProviderKeyRead` | crates/hapcli-ai/src/key_store.rs:152-157 | Takes only this provider's slot out of the map; its result stays for its waiters. |
| `KeyReads.OneLoadPerProvider` | crates/hapcli-ai/src/key_store.rs:54-77 | In every interleaving at most one keychain load per provider is in flight. |
| `KeyReads.FoundSlotsAreServed` | crates/hapcli-ai/src/key_store.rs:135-157 | Any slot that can be found or is waited on has its result, or an owner still going to publish one, also between publication and removal. |
| `KeyReads.EveryReaderGetsTheLoad` | crates/hapcli-ai/src/key_store.rs:270-295 | Owner and waiters return what their slot's single load returned, a load made for the provider they asked for, and that never changes. |
| `KeyReads.CacheServesLoadedKeys` | crates/hapcli-ai/src/key_store.rs:54-66 | While nobody else changes the cache, a key answered from it is the answer of an earlier load for that provider, and after a call has returned a loaded key the next lookup hits. |
| `Condense.CondenseToolMessages` | crates/hapcli-ai/src/tool_result_protocol.rs:24-93 | The in-place loop rewrites exactly the tool messages that have five newer ones. |
| `Condense.CondensedContentIsStable` | crates/hapcli-ai/src/tool_result_protocol.rs:40-92 | Condensed content is recognised and left alone the next time. |
| `Condense.CondenseThenAppend` | crates/hapcli-ai/src/tool_result_protocol.rs:24-93 | Condensing before an append does not change what condensing after it gives. |
| `Condense.IncrementalEqualsOneShot` | crates/hapcli-ai/src/tool_result_protocol.rs:24-93 | Condensing after every batch equals condensing the whole history once. |
| `Condense.CondensingIsIdempotent` | crates/hapcli-ai/src/tool_result_protocol.rs:24-93 | Condensing twice is condensing once. |
| `Condense.OnlyOldResultsChange` | crates/hapcli-ai/src/tool_result_protocol.rs:24-93 | Exactly the tool messages that have five newer ones, report no error and are not condensed yet change, and only in content, to marker, tool name and summary. |
| `Condense.NameShown` | crates/hapcli-ai/src/tool_result_protocol.rs:55-69 | The name shown is the one under `meta`, else under `metadata`, else `tool`. |
| `Condense.SummaryKeepsEnds` | crates/hapcli-ai/src/tool_result_protocol.rs:70-91 | A summary keeps all non-blank lines up to four, else the first and last two around a count of the others, cut at 300 characters. |
| `Condense.FirstLineEndsInReturn` | crates/hapcli-ai/src/tool_result_protocol.rs:70-74 | A carriage return before a line feed belongs to no line. |
| `JsonBounds.BoundedWalk` | crates/hapcli-ai/src/application_tools.rs:988-1001 | The mutable-budget walk accepts exactly when the node count fits the budget and every key and string is short, and then leaves budget minus count. |
| `JsonBounds.RuntimeCheckIsExact` | crates/hapcli-ai-tasks/src/validation.rs:90-101 | True exactly when one of the four handle keys occurs on some path of any depth. |
| `JsonBounds.ArgumentCheckIsExact` | crates/hapcli-ai/src/application_tools.rs:1003-1015 | True exactly when a handle key occurs on a path that never steps from an array straight into an array. |
| `JsonBounds.ArgumentCheckImpliesRuntimeCheck` | crates/hapcli-ai/src/application_tools.rs:1003-1015 | Whatever the argument-level check rejects, the runtime check rejects. |
| `JsonBounds.ChecksAgreeWithoutNestedArrays` | crates/hapcli-ai/src/application_tools.rs:1003-1015 | The checks agree when no array directly contains an array. |
| `JsonBounds.NestedArrayHidesHandle` | crates/hapcli-ai/src/application_tools.rs:1003-1015 | An input on which they differ. |
| `JsonBounds.TaskArgumentsAccepted` | crates/hapcli-ai/src/application_tools.rs:549-558 | Accepts exactly bounded arguments without a handle the check can see, hence without any handle if no array directly contains an array. |

## Left out

- Redaction before a save: the model saves the already sanitised state.
- Tool calls of a message, and `normalize_interrupted_assistant_projection`, which rewrites unfinished ones: not modelled, and no field stated to survive storage holds them.
- `load_state`, `list_conversations`, creation dates, origins and session metadata: plain copies of stored fields.
- Appending transcript entries and the diagnostic tables: appends with the same index pattern; the transcript is read by the load and deleted with its conversation, the diagnostic tables are not modelled.
- MessagePack, zstd, base64, serde, SHA-256 and redb themselves, and rows that fail to decode other than by decompression.
- ChatStoreHistory.SaveThenLoad: does not speak of the turn projection, which summaries in the transcript may change (`ChatStoreLoad.LoadShowsLatestSummary` does), nor of thoughts (`MessageCodec.ThoughtsSurvive` does).
- ChatStoreHistory.HighestSnapshotWins: speaks of messages that stay in every saved window; a row removed by a save starts afresh when its message comes back.
- Task titles and their normalisation: carried along and never read by the scheduler.
- Liveness: nothing says that a worker, a waiter or a run eventually proceeds; only that what it waits for is there or still to come.
- Order of task events across threads: events are sent after the lock is released, so the class records them per call only.
- TaskRuntime.BackgroundTaskRuntime.Create: the abort handle and the spawned worker appear only as the `Abort` step and the worker positions of `TaskSystem`.
- Durability of newly created parent directories: the code does not sync them into their own parent, and the model takes the directory as given.
- AtomicFile.AtomicFiles.DurableWrite: a path is a directory and a name; links, other processes and permissions are not modelled.
- Windows and other non-POSIX variants of the platform primitives.
- Coherence of the key cache with the keychain when a store or delete overlaps a read (the code does not enforce it), and the batched read on macOS.
- Poisoned locks, panics and dropped futures: a run that is dropped before its cleanup is not modelled.
- `AiChatState` operations, session and model configuration, `truncate_ai_tool_result_for_model`, policy decisions and the other argument validators: single-branch code that would only add easy members.
- Transports, HTTP, process spawning, the text sanitiser, slash commands and CLI formatting.
