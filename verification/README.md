# A verified model of the service's stateful protocols and decoders

The repository is a retrieval-augmented question answering service with the tools that build, deploy, check and
clean up its data. This project models the parts of it that keep state, talk to an untrusted other side, or must
survive an interruption, and proves what they promise. Dafny checks everything: `dafny verify dfyconfig.toml`.

Where the source changes fields, dictionaries or files step by step, the model has a class or a method with the same
steps, proved equal to a specification function; the results are lemmas about that function.

* **Exact deletion** (`Cleanup*.dfy`): inventory, backup, plan, apply, verify and conditional restore of a bucket. A
  state is the buckets, the local candidates and the receipt; apply is a list of effects that may be cut off after
  any of them. `CleanupSafety.dfy` has the results over whole runs, over every crash point, and on restore,
  `CleanupExact.dfy` when each command is refused.
* **Readiness cache** (`Readiness.dfy`, `Fingerprints.dfy`, `TreeFingerprint.dfy`, `ReadinessClosure.dfy`): the memo
  of the artifact verifier, for every sequence of calls, file trees, verdicts and clock readings, the two
  fingerprints that key it, and what a reused answer says about the files themselves.
* **Event stream** (`Stream.dfy`, `StreamSafety.dfy`, `StreamOutcome.dfy`, `StreamMarks.dfy`): the staged answer
  generator, driven by a script of everything it may meet: upstream tokens, time-outs, lost clients, failures, and a
  consumer that closes it at any yield.
* **Event format** (`Utf8.dfy`, `Json.dfy`, `JsonGrammar.dfy`, `SseFormat.dfy`, `SseReading.dfy`, `SseEvent.dfy`,
  `SseValues.dfy`, `Sanitizer.dfy`, `SanitizerKeeps.dfy`, `Timing.dfy`): the printer of events, the evaluator's
  parser over byte chunks, and what the printer lets through and must let through.
* **The stream through the filter** (`StreamFilter.dfy`, `StreamClient.dfy`): what a client that folds the tokens
  and replacements is shown when each text passes the sanitizer, from the events and from the bytes.
* **Operations helper** (`EnvFile.dfy`, `EnvExact.dfy`, `AtomicFile.dfy`, `Journal.dfy`, `Snapshot.dfy`,
  `LockFile.dfy`, `UrlPath.dfy`, `UrlExact.dfy`): the key-value format, crash-atomic replacement on a disk with
  volatile and durable parts, the journal, resumable snapshot files, the operations lock over open file
  descriptions, and media paths.
* **Voice evaluation** (`VoicePages.dfy`, `VoiceSafety.dfy`, `VoiceWalk.dfy`, `Sampler.dfy`): the page checker, the
  cursor walk against an arbitrary server, and the stratified sample.
* **Listing reuse** (`Listing.dfy`, `ListingCompare.dfy`), **permissions** (`PermissionPaths.dfy`,
  `Permissions.dfy`, `PermissionRun.dfy`, `PermissionExact.dfy`) and **story mentions** (`Spans.dfy`).
* Shared: `Results.dfy`, `Ordering.dfy`, `Folds.dfy`, `Texts.dfy`.

Results that say where the code falls short of what one might expect of it, each with its exact condition and an
input that shows it:

* `CleanupSafety.FinishedRunVerified`, `ProtectedRunRejected`: an undisturbed apply is rejected by verify exactly
  when it deleted objects of the protected bucket itself.
* `StreamFilter.AnswerShownIff`, `HiddenValueHidesAnswer`: the filter drops hidden texts one by one, so a finished
  run shows the answer exactly when no upstream value was hidden or, in a corrected run, when the answer passes or
  the values that pass spell it.
* `StreamFilter.HiddenTextShownIff`, `SplitTextIsShown`: the filter tests each text alone, so a hidden text that
  arrives in harmless pieces is shown; exactly when.
* `Snapshot.FinishedDurableIff`, `FinishedMayBeLost`: a snapshot file that is found is kept without syncing the
  directory; a successful `snapshot` has made both files durable exactly when it wrote one or both were durable
  before.

Two further conditions are exact but cannot be violated by the program itself, only by a foreign caller or file:
`ListingCompare.MergeComparesEqualIff` with `UnsortedBaselineReported` (captured inventories are sorted and unsorted
files refused, `src/huiji_rag/minio_strict.py:282-302`), and `Sampler.LabelsRightIff` with `RepeatedEntryMislabels`
(the inventory builder makes one entry for each entity, `BuiltInventoryLabelsRight`). `Permissions.VerifiedEntries`
shows that the final check for a complete fingerprint can never fail: the checks before it already imply it.

`README_EN.md:93` says that no `answer_replace` event exists; the code sends it at `backend/sse.py:240` and
`backend/sse.py:272`, and the model follows the code.

## Model

| member | source | states |
|---|---|---|
| CleanupModel.ClassesCover | scripts/cleanup_legacy_rag_p2.py:182-214 | classification fails exactly when an active key is missing remotely; otherwise the classes cover the remote keys and only active and probe may overlap |
| CleanupExact.ClassMembers | scripts/cleanup_legacy_rag_p2.py:182-214 | when a key is in each of the five classes, from the key sets and the probe test alone |
| CleanupExact.CompleteIff | scripts/cleanup_legacy_rag_p2.py:160-174 | a record is complete if and only if its key neither is absolute nor steps up to a parent directory anywhere, its size is not negative, its digests are hexadecimal and its etag is not empty |
| CleanupModel.InventorySound | scripts/cleanup_legacy_rag_p2.py:524-646 | an accepted inventory describes the bucket, and its candidates are distinct inventoried legacy keys, neither active nor probes |
| CleanupExact.InventoryPassesIff | scripts/cleanup_legacy_rag_p2.py:524-646 | an inventory is taken if and only if both buckets list complete records only, every active key is in the bucket, and each listed manifest entry has the digests and the size the manifest gives |
| CleanupModel.BackUpContents | scripts/cleanup_legacy_rag_p2.py:706-774 | a completed backup keeps every earlier file and holds, for each object, content that matches its record |
| CleanupModel.BackupKeepsFiles | scripts/cleanup_legacy_rag_p2.py:706-774 | completed or refused, a backup changes no earlier file; a download that does not match its record is left on disk |
| CleanupExact.NamedParts | scripts/cleanup_legacy_rag_p2.py:706-774 | the path of a backup has the parts of bucket and key that name something, each as often as they do |
| CleanupExact.PlainBackupPath | scripts/cleanup_legacy_rag_p2.py:706-774 | of a plain key in a plain bucket it is the bucket and the key |
| CleanupExact.BackUpPassesIff | scripts/cleanup_legacy_rag_p2.py:706-774 | a backup completes if and only if each object has a complete record, a path of its own that is free, and a body that matches the record |
| CleanupExact.BackupTakenIff | scripts/cleanup_legacy_rag_p2.py:706-774 | the backup command succeeds if and only if the candidate file is the inventory's and every object can be stored; its receipt is about exactly these |
| CleanupModel.PlanBound | scripts/cleanup_legacy_rag_p2.py:804-856 | whatever was sent or supplied, an accepted backup and plan name exactly the inventory's candidates, each with its backup |
| CleanupExact.PlanMadeIff | scripts/cleanup_legacy_rag_p2.py:804-856 | a plan is made if and only if the gates are open and the receipt is of this inventory and counts its candidates, and it is then the receipt's objects |
| CleanupRun.BackupRoot.BackupObjects | scripts/cleanup_legacy_rag_p2.py:706-774 | the loop returns the specified receipts or refusal and leaves exactly the specified files, a mismatching download among them |
| CleanupRun.Site.DeleteExactObjects | scripts/cleanup_legacy_rag_p2.py:276-299 | delete then append, object by object, cut off anywhere, leaves the state of that many effects |
| CleanupRun.Site.DeleteLocalCandidates | scripts/cleanup_legacy_rag_p2.py:902-913 | the local candidates are unlinked in order, with a receipt after each, and the loop stops at one that is gone |
| CleanupRun.Site.Apply | scripts/cleanup_legacy_rag_p2.py:870-942 | something happens if and only if the plan is the pinned one, no receipt exists, every local candidate is there as planned, and the four stores are as inventoried; then the effects happen in order up to the crash |
| CleanupExact.ApplyPassesIff | scripts/cleanup_legacy_rag_p2.py:870-942 | the gate of apply passes exactly under these conditions |
| CleanupExact.ApplyRefusedFor | scripts/cleanup_legacy_rag_p2.py:870-942 | each refusal is reported only for the drift, the receipt or the digest that it names |
| CleanupRun.Site.RestorePartial | scripts/cleanup_legacy_rag_p2.py:1025-1052 | without the proven capability or with an earlier receipt nothing happens; otherwise exactly the objects before the first that cannot be created are created, each with the backed-up body that matches its record, and the refusal is that one's |
| CleanupExact.RestoreExact | scripts/cleanup_legacy_rag_p2.py:306-346 | for every list of objects: it succeeds if and only if each is complete, backed up with matching content, absent and not named twice; whatever is new is one of the objects before the first that is not |
| CleanupRun.PhasesOfApply | scripts/cleanup_legacy_rag_p2.py:916-942 | a cut-off apply is in the deletions, the local part or the final receipts, and each phase starts only after the one before is complete |
| CleanupSafety.VerifiedRunExact | scripts/cleanup_legacy_rag_p2.py:965-1022 | a run that verify accepts ends with exactly the inventoried objects minus the planned ones; those are legacy keys used by no consumer and no probes; consumers' records, the protected bucket and the other stores are unchanged |
| CleanupSafety.VerifiedRunRecords | scripts/cleanup_legacy_rag_p2.py:965-1022 | the same in terms of the recorded digests alone, wherever they came from: the listing at the end is the inventoried one minus the deleted keys |
| CleanupSafety.DeletionReceipts | scripts/cleanup_legacy_rag_p2.py:266-299 | after n effects the receipts are those of the first n/2 planned objects, in order, and nothing else changed |
| CleanupSafety.DeletionsGone | scripts/cleanup_legacy_rag_p2.py:276-299 | after n effects exactly the first (n+1)/2 planned objects are gone |
| CleanupSafety.AcceptedPlanRunnable | scripts/cleanup_legacy_rag_p2.py:870-899 | a plan of the protocol that passes the drift check has a faithful backup of every object it names |
| CleanupSafety.CrashSafe | scripts/cleanup_legacy_rag_p2.py:902-942 | at every crash point deletions are a prefix of the plan, receipts miss at most one of them, no other object changed, and no local candidate is touched before all deletions have receipts |
| CleanupSafety.OnlyPlannedRemoved | scripts/cleanup_legacy_rag_p2.py:276-299 | at every crash point every object is there unchanged that the plan does not name with its version |
| CleanupSafety.StopsAtIncomplete | scripts/cleanup_legacy_rag_p2.py:266-299 | deletion stops before the first object whose record is incomplete, and the run does not finish |
| CleanupSafety.LocalCrashSafe | scripts/cleanup_legacy_rag_p2.py:902-913 | at every crash point the unlinked local candidates are a prefix of their list and at most the last of them lacks its receipt |
| CleanupSafety.RestoreNeverOverwrites | scripts/cleanup_legacy_rag_p2.py:306-346 | restore changes no object that exists, whatever it is asked |
| CleanupSafety.RestoreCreates | scripts/cleanup_legacy_rag_p2.py:306-346 | missing objects with matching backups are all created with their content, and nothing else |
| CleanupSafety.RestoreRepairs | scripts/cleanup_legacy_rag_p2.py:1025-1052 | from every crash point, restoring the missing objects succeeds and brings back every key and every content |
| CleanupSafety.FinishedReceipt | scripts/cleanup_legacy_rag_p2.py:902-942 | a finished apply has a completed receipt that covers all candidates, and they are gone |
| CleanupSafety.FinishedRunVerified | scripts/cleanup_legacy_rag_p2.py:952-1022 | an undisturbed finished run is accepted by verify if and only if it deleted nothing from the protected bucket |
| CleanupExact.VerifyAcceptsIff | scripts/cleanup_legacy_rag_p2.py:965-1022 | verify accepts if and only if the plan is the pinned one, the receipt is completed and covers all candidates, these are gone, the rest of the bucket and the protected bucket are as inventoried, and the other stores too |
| CleanupSafety.ProtectedRunRejected | scripts/cleanup_legacy_rag_p2.py:952-1022 | a finished run that verify rejects, though every check before it passed |
| Readiness.RagCache.VerifyArtifacts | backend/main.py:492-571 | the dictionary and the answer after a call are those of the step function |
| Readiness.CacheOfLastRun | backend/main.py:492-571 | in every run the cache is what the last run of the verifier stored |
| Readiness.RunRecorded | backend/main.py:443-571 | what a run of the verifier stores, from its exit, its output and the snapshots: accepted for exit 0 with a list whose closure is as fingerprinted, invalid for exit 1 over a still tree, otherwise transient for 60 s |
| Readiness.RanAnswers | backend/main.py:533-571 | a call that runs the verifier answers True if and only if that run was accepted |
| Readiness.RunsAgainIff | backend/main.py:492-532 | the verifier runs again if and only if the call is forced, the root differs, the back-off after an inconclusive run is over, the accepted closure or the rejected tree changed |
| Readiness.ReachableCoherent | backend/main.py:533-571 | in every reachable state a ready cache has a closure fingerprint that is not empty and no failure |
| Readiness.ReusedTrueIff | backend/main.py:492-532 | True is answered without the verifier if and only if the last run exited 0 with an accepted closure for the same root and the fingerprint recomputed in that call equals the accepted one |
| Readiness.NothingReusedFirst | backend/main.py:495-524 | the first answer comes from the verifier |
| Readiness.ReusedFalseIff | backend/main.py:443-571 | False is reused if and only if the last run exited 1 for the same root and the tree equals the four equal snapshots around it, or that run was inconclusive and its back-off is not over |
| Readiness.NextRunWaits | backend/main.py:495-524 | after a transient outcome the next unforced run for the root starts at least 60 s later |
| Readiness.BoundedRuns | backend/main.py:495-571 | a window of W seconds with only transient outcomes has at most 1 + W/60 runs |
| Fingerprints.ClosureFingerprint | backend/main.py:310-341 | a success has exactly the entries of "." and every prefix, as some look gave them, and is not empty; in a still tree it succeeds if and only if each is there with its kind and no file lies below another |
| Fingerprints.ClosureFingerprintDetermines | backend/main.py:310-341 | equal closure fingerprints of still trees mean equal stat numbers of every component |
| TreeFingerprint.FingerprintTree | backend/main.py:344-383 | the worklist enters everything in the tree and every unreadable directory, nothing else, and is not empty |
| TreeFingerprint.OneEntry | backend/main.py:355-383 | no two entries of one tree share a key |
| TreeFingerprint.TreeFingerprintDetermines | backend/main.py:344-383 | equal fingerprints mean equal trees, path by path |
| ReadinessClosure.ReusedTrueSeenAlike | backend/main.py:310-571 | True without the verifier: the last run accepted for the same root, and every closure component was seen then and now with its kind and the same stat numbers, whatever changes the tree in between |
| ReadinessClosure.ReusedTrueIffUnchanged | backend/main.py:310-571 | with a tree that stands still during each reading: True is reused if and only if the call is not forced, the last run accepted for the same root, and no component of the accepted closure changed |
| Stream.StreamWithHeartbeats | backend/sse.py:300-344 | the loop sends the specified mix of heartbeats and items for every timing |
| Stream.Generator.RunAll | backend/sse.py:53-291 | the generator emits and releases as the specification says, closed at any yield |
| StreamSafety.RunFollowsProtocol | backend/sse.py:91-291 | every run is accepted by a fixed automaton of events |
| StreamSafety.AtMostOneTerminal | backend/sse.py:91-291 | `done` and `error` exclude each other, occur once, and nothing follows them |
| StreamOutcome.RunOutcome | backend/sse.py:91-291 | a run that is not abandoned ends with `done` if and only if preparation, upstream and finalization succeed, and else with `error` with the message and phase of the first stage that failed, partial if and only if a token was sent; an abandoned one has no terminal event |
| StreamOutcome.EmittedOutcome | backend/sse.py:53-291 | the same of what is emitted when the consumer closes the generator at any yield |
| StreamMarks.RunMarks | backend/sse.py:91-291 | besides tokens and heartbeats a run sends exactly the events of its stages, all of them unless something cuts it short and then the first ones; the sources if and only if the preparation succeeded before that |
| StreamMarks.LogShowsEvents | backend/sse.py:53-91 | with and without a memory the consumer gets exactly the emitted events |
| StreamOutcome.WaitExact | backend/sse.py:300-313 | a wait sends one heartbeat for each time-out until the task is done or the client is found gone |
| StreamSafety.PhasesInOrder | backend/sse.py:91-291 | the status phases are a prefix of one of four fixed words |
| StreamSafety.LeaseReleasedOnce | backend/sse.py:65-71 | with a memory store the lease is acquired first and released exactly once, last, with a turn if and only if `done` was emitted |
| StreamSafety.ShownAtDone | backend/sse.py:179-288 | folding appends and replacements gives exactly the packet's answer at `done`, unless the mode is "none" |
| StreamSafety.DraftWithdrawn | backend/sse.py:231-262 | after a failed validation a shown draft stands replaced by the fallback |
| StreamSafety.HeartbeatsAreTransparent | backend/sse.py:300-344 | without heartbeats the stream is the upstream values in order, each once; a prefix of them on disconnect |
| StreamOutcome.PulsesExact | backend/sse.py:316-344 | how the loop ends and how many heartbeats it sends, from the timing alone |
| StreamFilter.FilteredAtDone | backend/sse.py:179-288 | at `done` a client behind the filter is shown the answer if that corrects the draft and passes, and else the concatenation of the upstream values that pass |
| StreamFilter.AnswerShownIff | backend/sse.py:179-288 | the shown text is the answer if and only if no upstream value was hidden or, when the answer differs from the draft, if and only if the answer passes or the values that pass spell it |
| StreamFilter.HiddenTextShownIff | backend/sse.py:41-50 | a hidden text is shown at `done` if and only if the values that pass spell one and no passing correction replaces it |
| StreamFilter.HiddenValueHidesAnswer | backend/sse.py:41-50 | a finished run, not corrected, in which the client does not see the answer |
| StreamFilter.SplitTextIsShown | backend/sse.py:41-50 | a finished run in which two harmless values show a hidden text |
| StreamClient.ClientStepIsFiltered | backend/sse.py:41-50 | one event, sanitized and printed as JSON, changes the client's text as the filter with the sanitizer's path test does |
| StreamClient.ClientReadsAnswer | backend/sse.py:41-288 | from the bytes of a finished run, cut anywhere, a folding client gets the answer if it corrects the draft and is no local path, and else the upstream values that are no local paths |
| Utf8.FeedAllConcat | scripts/verify_multi_intent_voice.py:671-712 | incremental decoding may be cut anywhere |
| Utf8.DecodeEncode | scripts/verify_multi_intent_voice.py:671-712 | decoding inverts encoding for every text |
| Utf8.DecodesIff | scripts/verify_multi_intent_voice.py:671-712 | bytes decode to a text if and only if they are its encoding |
| Json.ValueRoundTrip | backend/sse.py:41-50 | reading a written value gives it back and leaves what follows |
| Json.LoadsDump | backend/sse.py:41-50 | `json.loads` inverts `json.dumps` on every value |
| JsonGrammar.LoadsIff | scripts/verify_multi_intent_voice.py:671-712 | a text is read as a value if and only if it is a JSON text (RFC 8259) for that value, with any blanks, escapes and surrogate pairs |
| JsonGrammar.NumberIff | scripts/verify_multi_intent_voice.py:671-712 | a literal is a number if and only if it has the parts of section 6 of RFC 8259 |
| JsonGrammar.DictExact | scripts/verify_multi_intent_voice.py:671-712 | an object has each name once, in the order of first occurrence, with its last value |
| Json.DumpPrintable | backend/sse.py:41-50 | a written value has no line break, so it fits one data line |
| SseFormat.ParseSseEvents | scripts/verify_multi_intent_voice.py:671-712 | the parser's loops compute the specified events or the specified error |
| SseFormat.ParseIgnoresCuts | scripts/verify_multi_intent_voice.py:671-712 | the result depends only on the concatenated bytes |
| SseReading.LinesRead | scripts/verify_multi_intent_voice.py:671-712 | a block of comments, events, data, blank and other lines means its last event name and its joined data |
| SseReading.LineOf | scripts/verify_multi_intent_voice.py:671-712 | every line that is not empty is a comment, a field with its value or a bare name |
| SseReading.BlockRead | scripts/verify_multi_intent_voice.py:671-712 | a block yields its event, no event without data or when blank, and an error when its data are no JSON object |
| SseReading.AnyStreamRead | scripts/verify_multi_intent_voice.py:671-712 | any stream of such blocks, with any line ends, any gaps between the blocks and any cuts, parses to the meanings of its blocks up to the first error |
| SseReading.RefusedTextIff | scripts/verify_multi_intent_voice.py:671-712 | the bytes are refused as text if and only if they are the encoding of none |
| SseReading.AnyChunksRead | scripts/verify_multi_intent_voice.py:673-685 | chunks of bytes and of text are put together in their order |
| SseReading.MixedRefusedIff | scripts/verify_multi_intent_voice.py:673-685 | chunks of text leave the decoding of the bytes around them alone |
| SseFormat.ParseInvertsPrint | scripts/verify_multi_intent_voice.py:671-712 | parsing any cut of a printed stream returns exactly its events |
| SseEvent.TokenKept | backend/sse.py:41-50 | a token event carries its token sanitized, or null when it had none, or no token when that is unsafe |
| SseEvent.SentIsPrinted | backend/sse.py:41-50 | the texts that `sse_event` returns and the heartbeats add up to the stream that the parser's inverse is stated for |
| SseEvent.EncodedPrinted | backend/sse.py:41-50 | every event the backend encodes can be read back |
| SseEvent.EvaluatorReadsWhatIsSent | backend/sse.py:41-50 | the evaluator reads exactly the sent events with their sanitized data, heartbeats dropped |
| SseValues.EvaluatorGetsValues | backend/sse.py:41-50 | from the bytes of any stream the evaluator gets every event by name with exactly the Python values of its payload |
| SseValues.PayloadExact | backend/sse.py:41-50 | a payload is the sanitized data, but for the token of a token event |
| SseValues.DecimalReadBack | backend/sse.py:41-50 | every integer is read back from its digits |
| Sanitizer.OutputSafe | backend/schemas.py:477-528 | at every depth the output has no sensitive key, no local path, no value JSON cannot carry, and only allowed stage names under `stage_ms` |
| SanitizerKeeps.DroppedIff | backend/schemas.py:477-514 | a value is dropped if and only if it is a local path, not finite, or nothing JSON can carry |
| SanitizerKeeps.KeptEverywhere | backend/schemas.py:477-528 | at every depth exactly the items that are not dropped are kept, in order (for a set: with the same multiset, by sort key), the fields with a text key that is not sensitive and a value that is not dropped, and the public stages with a duration |
| Sanitizer.SafeIffUnchanged | backend/schemas.py:477-514 | a value is unchanged if and only if it is already safe |
| Sanitizer.SanitizeIdempotent | backend/schemas.py:568-570 | sanitizing twice is sanitizing once |
| Sanitizer.SetOrderIrrelevant | backend/schemas.py:477-514 | the result for a set does not depend on iteration order |
| Timing.OneStage | backend/schemas.py:413-439 | no stage name counts for two public stages |
| Timing.FirstWordDecides | backend/schemas.py:413-439 | the internal names are shared out to the public stages by their first words |
| Timing.TimeConserved | backend/schemas.py:531-565 | the public stage times add up to all time recorded under known names |
| Timing.TimesIdempotent | backend/schemas.py:531-565 | normalizing stage times again changes nothing |
| Timing.ErrorsExact | backend/schemas.py:550-556 | a public stage is listed if and only if one of its names failed; normalizing again changes nothing |
| Timing.TimesAreSafe | backend/schemas.py:517-565 | normalized stage times pass the sanitizer's stage filter |
| EnvFile.ReadStrictEnv | deploy/bin/ops_helper.py:139-164 | the loop fills the specified map or stops with the specified error |
| EnvExact.RecordReadIff | deploy/bin/ops_helper.py:151-164 | a line is read as a key and a value if and only if it is that record, the record is clean, and the key is new |
| EnvExact.RecordRefused | deploy/bin/ops_helper.py:151-164 | each error of a line is reported exactly for its cause |
| EnvExact.SyntaxRefusedIff | deploy/bin/ops_helper.py:151-152 | a line has the wrong shape if and only if it has blanks around it, no equals sign, or an export |
| EnvExact.BreaksIff | deploy/bin/ops_helper.py:147 | the characters that end a line |
| EnvExact.LineEnded | deploy/bin/ops_helper.py:147 | a line ends at the first break, and the rest is split in the same way; a carriage return with a line feed is one break |
| EnvExact.KeyIff | deploy/bin/ops_helper.py:23 | what a key is, character by character |
| EnvExact.PlaceholderIff | deploy/bin/ops_helper.py:28 | what a placeholder is: a dollar sign before a name or a name in braces |
| EnvExact.CommentIff | deploy/bin/ops_helper.py:148-150 | which lines are skipped |
| EnvExact.LineAdded | deploy/bin/ops_helper.py:147-164 | one more line adds its record, or is the error |
| EnvExact.FileRefusedIff | deploy/bin/ops_helper.py:139-146 | a file is refused as text if and only if its bytes encode none, and for a NUL in it |
| EnvFile.ReadInvertsPrint | deploy/bin/ops_helper.py:607-609 | printing and reading back is the identity on every map that can be read |
| EnvFile.CleanReadBack | deploy/bin/ops_helper.py:607-609 | every clean map is read back from its bytes |
| EnvFile.ReadableIffClean | deploy/bin/ops_helper.py:139-164 | a map can be read from some text if and only if its records are clean |
| AtomicFile.FileSystem.AtomicReplace | deploy/bin/ops_helper.py:560-593 | the calls happen in order up to the one that fails or the crash; after a failure the temporary file is removed |
| AtomicFile.ReplaceIsAtomic | deploy/bin/ops_helper.py:560-593 | whichever call fails and at every crash point the target reads as the whole old or whole new file, after the directory sync durably new, and other files are untouched |
| AtomicFile.AttemptCertain | deploy/bin/ops_helper.py:560-593 | the same from a target that earlier interrupted attempts left unsettled: every content a crash may leave is one of the allowed ones or the new file |
| AtomicFile.FailureLeavesTarget | deploy/bin/ops_helper.py:560-593 | a call that fails before the rename leaves the target, now and after a crash, and no temporary file |
| Journal.MarkedIsValid | deploy/bin/ops_helper.py:812-860 | the marked journal is accepted and differs exactly in its phase |
| Journal.AcceptedIff | deploy/bin/ops_helper.py:812-860 | a journal is accepted if and only if owner and mode are safe, it reads as a map, and every field is as required |
| Journal.MarkJournal | deploy/bin/ops_helper.py:1092-1096 | marking refuses exactly what validation refuses and otherwise replaces the file as specified |
| Journal.MarkJournalCrashSafe | deploy/bin/ops_helper.py:1092-1096 | failed or interrupted anywhere, also after earlier interrupted marks, every content a crash may leave is an accepted journal that differs at most in its phase |
| Journal.JournalSurvives | deploy/bin/ops_helper.py:1092-1096 | over any number of marks, failures, kills and crashes the journal is accepted, and its phase is that of the last finished mark or of one begun since |
| Snapshot.EnsureSnapshotFile | deploy/bin/ops_helper.py:612-632 | a file is kept, written or refused by what is there |
| Snapshot.TakeSnapshot | deploy/bin/ops_helper.py:672-682 | the two files are checked and then ensured one after the other, up to a refusal, a failure or the crash |
| Snapshot.TakeRefusedIff | deploy/bin/ops_helper.py:612-685 | a try is refused if and only if a file it finds has a foreign owner or mode or differs from what it wants |
| Snapshot.SnapshotResumes | deploy/bin/ops_helper.py:612-685 | over any number of interrupted tries and crashes each file is absent or whole, and the next try with the same contents is not refused |
| Snapshot.SnapshotImmutable | deploy/bin/ops_helper.py:625-632 | once both files are durable a later try changes nothing, and succeeds if and only if it wants the same contents |
| Snapshot.FinishedDurableIff | deploy/bin/ops_helper.py:625-632 | a successful try leaves both files durable if and only if it wrote one of them or both were durable before |
| Snapshot.FinishedMayBeLost | deploy/bin/ops_helper.py:625-632 | after a kill between rename and directory sync the next try reports success, and a crash may still lose the file |
| LockFile.OneOwner | deploy/bin/ops_helper.py:377-494 | in every reachable state at most one open file description owns the lock |
| LockFile.SuccessOwnsLock | deploy/bin/ops_helper.py:377-438 | a check that succeeds ends with the inherited description owning the lock, whatever others do in between |
| LockFile.CheckIff | deploy/bin/ops_helper.py:377-438 | whatever others do in between: success if and only if the path names one file when looked at and when the probe is opened, the inherited descriptor refers to it, it is locked exclusively when the probe asks, and no other description has a lock on it at the end |
| LockFile.NoProbeLeft | deploy/bin/ops_helper.py:377-438 | whatever others do, the process keeps exactly the descriptors it had |
| LockFile.SuccessSawOneFile | deploy/bin/ops_helper.py:377-438 | the part of this that a success shows without assumptions on the others |
| LockFile.UndisturbedCheckIff | deploy/bin/ops_helper.py:377-438 | undisturbed, the check succeeds if and only if that description held the lock on entry, and it leaves no probe behind |
| LockFile.UndisturbedLockIff | deploy/bin/ops_helper.py:441-494 | undisturbed, taking the lock succeeds if and only if nobody else has a lock on the file |
| LockFile.LockTable.ValidateLockDescriptor | deploy/bin/ops_helper.py:377-438 | the calls, with interference between them, end as specified |
| UrlPath.PassShortens | deploy/bin/ops_helper.py:497-507 | a pass changes a text if and only if it has an escape, and then shortens it |
| UrlExact.QuotedReadsBack | deploy/bin/ops_helper.py:497-507 | a pass reads every text back from every way to escape some of its characters |
| UrlExact.UnfinishedCharacter | deploy/bin/ops_helper.py:497-507 | an escaped character that is not finished is one replacement character, and reading goes on with what broke it off |
| UrlExact.StrayByte | deploy/bin/ops_helper.py:497-507 | an escape of a byte that begins no character is one replacement character |
| UrlPath.DecodedSegments | deploy/bin/ops_helper.py:497-507 | len + 1 passes always reach the fixpoint, and it is refused if and only if it has a dot segment |
| UrlExact.DotFreeIffFixed | deploy/bin/ops_helper.py:504-507 | the dot check finds a text if and only if dot-segment removal (section 5.2.4 of RFC 3986) would change it |
| UrlExact.TrimmedSlashes | deploy/bin/ops_helper.py:511 | trimming takes off the slashes at the end and all of them |
| UrlPath.FullyDecodedIsFixed | deploy/bin/ops_helper.py:497-507 | the fixpoint has no escape left |
| UrlPath.PassKeepsDotSegments | deploy/bin/ops_helper.py:497-507 | no pass removes a dot segment |
| UrlPath.ValidateMediaPath | deploy/bin/ops_helper.py:510-517 | the check decides the specified predicate |
| UrlPath.AcceptedIffBelow | deploy/bin/ops_helper.py:510-517 | a path is accepted if and only if both decode without dot segments and it lies below the base |
| UrlPath.AcceptedHasNoDots | deploy/bin/ops_helper.py:510-517 | dot-segment removal (section 5.2.4 of RFC 3986) changes neither an accepted path nor its decoding |
| VoicePages.VoiceObservations | scripts/verify_multi_intent_voice.py:474-493 | the ids seen in order, and the recordings grouped by line in the order of first occurrence |
| VoicePages.EvaluateVoiceContent | scripts/verify_multi_intent_voice.py:496-532 | the loops report the failures of a page in the specified order |
| VoicePages.ContentExact | scripts/verify_multi_intent_voice.py:496-532 | a failure is in that list if and only if it occurs in the page |
| VoicePages.EvaluateAllVoicePages | scripts/verify_multi_intent_voice.py:576-643 | the loops report the failures of all pages in the specified order, none twice |
| VoicePages.AllExact | scripts/verify_multi_intent_voice.py:576-643 | a failure is in that list if and only if it occurs in the pages or in what they show together |
| VoiceSafety.SilentIsHonest | scripts/verify_multi_intent_voice.py:576-643 | no failure: ceil(total/size) pages, page i shows exactly slice i, and every recording is shown once |
| VoiceSafety.HonestIsSilent | scripts/verify_multi_intent_voice.py:576-643 | honest pages give no failure |
| VoiceSafety.CheckerExact | scripts/verify_multi_intent_voice.py:576-643 | the checker returns no failure if and only if the pages are honest |
| VoiceWalk.FollowVoicePages | scripts/verify_multi_intent_voice.py:795-826 | against any server: at most min(512, ceil(total/size), max(1, limit)) - 1 requests, distinct cursors, and the exact reason why it stops |
| VoiceWalk.BoundExact | scripts/verify_multi_intent_voice.py:804-813 | the bound is the least number of pages that holds all lines, refused beyond 512, less only on demand, never below one; when the geometry is invalid |
| VoiceWalk.EndExact | scripts/verify_multi_intent_voice.py:814-826 | how the last page and the requests so far decide the end |
| VoiceWalk.WalkDetermined | scripts/verify_multi_intent_voice.py:795-826 | that contract leaves one outcome for each server |
| VoiceWalk.AcceptedWalk | scripts/verify_multi_intent_voice.py:795-826 | an accepted walk asked exactly for the other slices |
| VoiceWalk.HonestServerPasses | scripts/verify_multi_intent_voice.py:795-826 | a server that shows a well-formed inventory is walked to its end and accepted |
| Sampler.PositionInRange | scripts/verify_multi_intent_voice.py:1302-1307 | a rounded position lies in the list |
| Sampler.ChosenSize | scripts/verify_multi_intent_voice.py:1274-1311 | the eligible part of the sample has min(limit, distinct eligible) distinct eligible entries |
| Sampler.StrataChosen | scripts/verify_multi_intent_voice.py:1280-1311 | the sample has the ends and the middle by lines and then the extremes of skills and languages, as many of them as the target, which for two are the ends |
| Sampler.PositionNearest | scripts/verify_multi_intent_voice.py:1302-1307 | a spread position is the nearest whole number to its share of the list, the even one of two |
| Sampler.SpreadEnds | scripts/verify_multi_intent_voice.py:1302-1307 | the spread starts with the first entry and ends with the last |
| Sampler.AnomalousIff | scripts/verify_multi_intent_voice.py:1245-1256 | an entry is an anomaly if and only if it is not eligible or some of its texts is not playable |
| Sampler.ExtremesBound | scripts/verify_multi_intent_voice.py:1294-1300 | those extremes bound every eligible entry |
| Sampler.SelectStratified | scripts/verify_multi_intent_voice.py:1274-1319 | the loops select exactly the specified sample: the preferred entries in order, each once, then the first anomaly |
| Sampler.SampledIsSample | scripts/verify_multi_intent_voice.py:1274-1319 | that sample has the eligible ones first, without repetition, then the least anomaly that is not among them, and one whenever there is one |
| Sampler.LabelsRightIff | scripts/verify_multi_intent_voice.py:1188-1213 | the labels of the report are right if and only if the eligible entries fill the sample, or none of them is repeated in the inventory, or every anomaly is eligible as well |
| Sampler.BuiltInventoryLabelsRight | scripts/verify_multi_intent_voice.py:213-372 | of an inventory with one entry for each entity, as it is built, the labels are always right |
| Sampler.RepeatedEntryMislabels | scripts/verify_multi_intent_voice.py:1188-1213 | an inventory that only a foreign caller can pass, whose anomaly is labelled eligible |
| Listing.StripTwice | scripts/verify_huiji_provenance_acceptance.py:91-101 | an identity is its own identity |
| Listing.StripExact | scripts/verify_huiji_provenance_acceptance.py:91-101 | stripping takes off the quotes at both ends and all of them |
| Listing.MergeListing | scripts/verify_huiji_provenance_acceptance.py:104-147 | bad baselines and bad listings are refused, in that order; otherwise the merge is the specified inventory |
| ListingCompare.CompareProtectedPayloads | scripts/verify_huiji_provenance_acceptance.py:224-282 | the first refused artifact is the error; otherwise exactly the changed parts are reported |
| ListingCompare.MergeComparesEqualIff | scripts/verify_huiji_provenance_acceptance.py:104-282 | a merged inventory compares equal if and only if policy and old identities are the same, further keys are allowed and the baseline is in key order |
| ListingCompare.UnsortedBaselineReported | scripts/verify_huiji_provenance_acceptance.py:104-147 | a baseline not in key order, as only a foreign file has it, whose unchanged bucket is reported as changed |
| ListingCompare.ListingReuseAgrees | scripts/verify_huiji_provenance_acceptance.py:104-147 | without allowances: if and only if policy and the map from key to size, etag and version are equal |
| ListingCompare.IdentifyShadowAdditions | scripts/verify_huiji_provenance_acceptance.py:321-376 | the attributed keys in order, and for each error exactly when it is reported |
| ListingCompare.ShadowAttributionExact | scripts/verify_huiji_provenance_acceptance.py:321-376 | with attribution the comparison passes if and only if old objects are unchanged and every added key is attributable |
| ListingCompare.SnapshotComparisonExact | scripts/verify_huiji_provenance_acceptance.py:224-282 | a whole snapshot compares equal if and only if each part and each scope does |
| ListingCompare.AllowedComparisonExact | scripts/verify_huiji_provenance_acceptance.py:224-282 | with allowed keys and artifacts: each change is reported if and only if it is one, the allowances of a scope applying to that scope alone |
| ListingCompare.ArtifactsPassIff | scripts/verify_huiji_provenance_acceptance.py:259-282 | allowed artifacts pass if and only if the later ones are the earlier ones and exactly the additions |
| PermissionPaths.ExpectedComponents | deploy/bin/prepare-rag-permissions.py:34-64 | the components are "." and every prefix, of the right kind; failure if and only if a path is not canonical or one file lies below another |
| PermissionExact.CanonicalIff | deploy/bin/prepare-rag-permissions.py:34-46 | a path has these parts if and only if it is their join, without backslash and NUL, and none is empty or a dot segment |
| PermissionPaths.ParentFirst | deploy/bin/prepare-rag-permissions.py:219-240 | ordered by depth and path, a component's parent is open before it |
| Permissions.VerifiedEntries | deploy/bin/prepare-rag-permissions.py:67-148 | the answer is accepted if and only if it describes the approved closure component by component; "incomplete" is never reported |
| PermissionRun.Host.OpenedVerifiedEntries | deploy/bin/prepare-rag-permissions.py:205-244 | a descriptor for every component, or a refusal; undisturbed, exactly as the tree and the fingerprint say |
| PermissionExact.OpenedIff | deploy/bin/prepare-rag-permissions.py:205-244 | undisturbed, the components are opened if and only if the root is a directory and each other one is what its parent's inode holds under its name, no link, with the numbers of its entry |
| PermissionExact.NamedIff | deploy/bin/prepare-rag-permissions.py:205-244 | a path names an inode if and only if it can be walked to from the root without following a link |
| PermissionRun.Host.CheckOpenModes | deploy/bin/prepare-rag-permissions.py:251-262 | undisturbed, it accepts exactly the right modes; in any case every descriptor was inspected and had its mode |
| PermissionRun.Host.VerifyOpenedNamespace | deploy/bin/prepare-rag-permissions.py:277-293 | success: the last verification saw every path name the open inode with its mode |
| PermissionRun.Host.Enforce | deploy/bin/prepare-rag-permissions.py:296-319 | whatever others do: modes are set on opened inodes of the verified closure alone, directories first, all of them before a success and none when only checking; success means that after the last setting every descriptor was inspected with its mode, then the closure verified again, then every descriptor found as that says; undisturbed, a following check passes, and with a truthful verifier it succeeds if and only if the closure was valid |
| PermissionRun.SecuredClosure | deploy/bin/prepare-rag-permissions.py:277-319 | secured: "." and the prefixes of the files, each naming the opened inode, of its kind and with mode 0755 or 0644 |
| PermissionExact.SecuredIff | deploy/bin/prepare-rag-permissions.py:277-319 | secured means an entry for each component and no other, each for the open inode, a directory with mode 0755 or a regular file with mode 0644 |
| PermissionRun.TruthfulOpens | deploy/bin/prepare-rag-permissions.py:205-244 | what a truthful verifier describes can be opened |
| PermissionRun.OpenAllAgain | deploy/bin/prepare-rag-permissions.py:205-244 | changed modes do not change which inodes are opened |
| Spans.MentionSpans | scripts/capture_story_segment_baseline.py:282-292 | it succeeds if and only if the names can be placed in order without overlap, and places each as far left as any placement does |
| Spans.WovenIsPlaceable | scripts/capture_story_segment_baseline.py:431-446 | a query built around the names never fails |
| Spans.PlaceableIsWoven | scripts/capture_story_segment_baseline.py:282-292 | and only such queries succeed |
| Spans.QuotedIsPlaceable | scripts/capture_story_segment_baseline.py:466-474 | the queries that list the quoted names never fail |

## Left out

Assumptions of the model:

- Digests are injective: a digest is represented by what it digests. Etags and version ids are opaque strings.
- Inventories of the object store report the digests of the stored bodies. The source reads them from the objects' metadata and hashes a body only when they are malformed (`src/huiji_rag/minio_strict.py:1412-1460`); `CleanupSafety.VerifiedRunRecords` states what holds of the records without this assumption. Object versions other than the current one are not modelled.
- A receipt line is written whole or not at all; a line torn by a crash is not modelled.
- The file trees of `Fingerprints` and `TreeFingerprint` do not change within a directory walk unless the lookup function says so; a permission verifier sees the tree at one instant.
- Floating-point numbers are reals: no rounding, no overflow when an integer becomes a float; `math.ceil` of a quotient is exact.
- Readiness.ReusedTrueIff: assumes that a fingerprint that can be read is not empty; `ReadinessClosure` proves this of the readings and states the result without the assumption.
- Sanitizer.SetOrderIrrelevant: needs sort keys that tell the kept elements apart, as the source's JSON sort key does for different JSON values.
- Regular-expression tests (sensitive keys, local paths, probe keys) and the rendering of floats are parameters, with the syntax of a JSON number required of the latter.

Parts of the repository that are not modelled:

- The React client (`frontend/react-app/src/api/sse.ts`): the client of `StreamClient` folds tokens and replacements, skips absent texts and does not use the answer that `done` carries.
- FastAPI routes, argument parsing, logging, `_legacy_stream`, the serialization of sources, and the asynchronous closing of the upstream.
- Lone surrogates in texts, and JSON's NaN and Infinity, which the sanitizer removes before printing.
- The JSON shapes of voice panels and snapshots: entries that are not objects are skipped by the source and absent here.
- The checks of journal references and of owner and mode of the lock file: arbitrary tests or left out. The phases a journal may be given are those the command line accepts (`deploy/bin/ops_helper.py:1249`).
- The symbolic-link branch of `_delete_local_candidates`, which cannot be reached because the path is resolved before.
- PermissionRun.Host.Enforce: does not say which of several refusals is reported.
- PermissionRun.Host.CheckOpenModes: inspects in the order of the paths; the source does in the order in which the verifier lists them.
- CleanupRun.Site.RestorePartial: the objects come from a plan whose digest the command checks first (`scripts/cleanup_legacy_rag_p2.py:1026-1028`) and whose malformed items it refuses; neither is modelled, nor a transport without conditional requests.
- Fingerprints.ClosureFingerprint: needs canonical paths without NUL characters; `lstat` refuses those.
- Special files that block when they are opened, in `PermissionRun`.
- `reconcile_build` and `compare_object_payloads` (`scripts/minio_blue_green_evidence.py:734-802`): a partition by key equality.
- Recovery order and phase transitions of blue/green deployments: their shell scripts are not part of this model.
